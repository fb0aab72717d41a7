/** What gossip rounds add up to: progress, termination, and the union everywhere. */
module MeshConvergence {
  import opened ArtifactStore
  import opened MeshNode
  import opened MeshNetwork
  import opened MeshGossip

  // ----- progress -----

  /** Pairs (node, hash) such that the node lacks the artifact. */
  function MissingPairs(net: Net, universe: set<Hash>): set<(NodeId, Hash)> {
    set a, h | a in net.nodes && h in universe && h !in net.nodes[a].store.catalog :: (a, h)
  }

  lemma StrictSubsetIsSmaller<T>(small: set<T>, large: set<T>, x: T)
    requires small <= large && x in large && x !in small
    ensures |small| < |large|
  {
    assert small + (large - small) == large;
    assert x in large - small;
  }

  /** Deliveries never add a missing pair, and each answer to an open request for a missing
      artifact removes one. */
  lemma AnswersShrinkMissing(hash: HashFn, universe: set<Hash>, net: Net, k: nat)
    requires Honest(hash, universe, net) && k < |net.flight|
    ensures MissingPairs(DeliverAt(hash, net, k), universe) <= MissingPairs(net, universe)
    ensures var p := net.flight[k];
            p.dst in net.nodes && p.msg.ArtifactResponse? && p.msg.hash in net.nodes[p.dst].pending && p.msg.hash !in net.nodes[p.dst].store.catalog
            ==> |MissingPairs(DeliverAt(hash, net, k), universe)| < |MissingPairs(net, universe)|
  {
    var p := net.flight[k];
    DeliveryIsHonest(hash, universe, net, k);
    if p.dst in net.nodes && p.msg.ArtifactResponse? && p.msg.hash in net.nodes[p.dst].pending && p.msg.hash !in net.nodes[p.dst].store.catalog {
      PendingUntilStored(hash, universe, net.nodes[p.dst], p.src, p.msg, p.msg.hash);
      StrictSubsetIsSmaller(MissingPairs(DeliverAt(hash, net, k), universe), MissingPairs(net, universe), (p.dst, p.msg.hash));
    }
  }

  // ----- a round ends -----

  predicate IsGossip(msg: Message) {
    msg.CatalogSync? || msg.ArtifactRequest? || msg.ArtifactResponse?
  }

  /** How many deliveries a message can still cause, itself included. */
  function Weight(msg: Message): nat {
    if msg.CatalogSync? then 1 + 2 * |msg.entries| else if msg.ArtifactRequest? then 2 else 1
  }

  function Load(flight: seq<Packet>): nat {
    if flight == [] then 0 else Weight(flight[0].msg) + Load(flight[1..])
  }

  lemma {:induction false} LoadOfConcat(p: seq<Packet>, q: seq<Packet>)
    ensures Load(p + q) == Load(p) + Load(q)
  {
    if p == [] {
      assert p + q == q;
    } else {
      assert (p + q)[0] == p[0] && (p + q)[1..] == p[1..] + q;
      LoadOfConcat(p[1..], q);
    }
  }

  lemma {:induction false} LoadOfRemoved(flight: seq<Packet>, k: nat)
    requires k < |flight|
    ensures Load(flight) == Load(Remove(flight, k)) + Weight(flight[k].msg)
  {
    var rest := flight[k..];
    assert rest[0] == flight[k] && rest[1..] == flight[k + 1..];
    assert flight == flight[..k] + rest;
    LoadOfConcat(flight[..k], rest);
    LoadOfConcat(flight[..k], flight[k + 1..]);
  }

  lemma {:induction false} LoadOfRequests(self: NodeId, back: NodeId, hashes: seq<Hash>)
    ensures Load(Addressed(self, back, Requests(hashes))) == 2 * |hashes|
  {
    if hashes != [] {
      assert Addressed(self, back, Requests(hashes))[1..] == Addressed(self, back, Requests(hashes[1..]));
      LoadOfRequests(self, back, hashes[1..]);
    }
  }

  lemma LoadOfReplies(hash: HashFn, n: NodeState, sender: NodeId, msg: Message, self: NodeId)
    requires IsGossip(msg)
    ensures var outs := Handle(hash, n, sender, msg).1;
            Load(Addressed(self, sender, outs)) < Weight(msg) && forall o | o in outs :: IsGossip(o.msg)
  {
    var outs := Handle(hash, n, sender, msg).1;
    if msg.CatalogSync? {
      var wanted := Wanted(n.store.catalog.Keys, msg.entries);
      MissingIsExact(n.store.catalog.Keys, msg.entries, "");
      LoadOfRequests(self, sender, wanted);
    } else if outs != [] {
      assert |outs| == 1 && outs[0].msg.ArtifactResponse?;
      assert Addressed(self, sender, outs)[1..] == [];
    }
  }

  lemma DeliveryLightens(hash: HashFn, net: Net, k: nat)
    requires k < |net.flight| && forall p | p in net.flight :: IsGossip(p.msg)
    ensures Load(DeliverAt(hash, net, k).flight) < Load(net.flight)
    ensures forall p | p in DeliverAt(hash, net, k).flight :: IsGossip(p.msg)
  {
    var p := net.flight[k];
    LoadOfRemoved(net.flight, k);
    if p.dst in net.nodes {
      LoadOfReplies(hash, net.nodes[p.dst], p.src, p.msg, p.dst);
      var outs := Handle(hash, net.nodes[p.dst], p.src, p.msg).1;
      LoadOfConcat(Remove(net.flight, k), Addressed(p.dst, p.src, outs));
      forall q | q in Addressed(p.dst, p.src, outs)
        ensures IsGossip(q.msg)
      {
        var i :| 0 <= i < |outs| && q == Address(p.dst, p.src, outs[i]);
        assert outs[i] in outs;
      }
    }
  }

  /** A round ends: from gossip messages alone no run is longer than their total weight. */
  lemma {:induction false} RunsAreBounded(hash: HashFn, net: Net, choices: seq<nat>, end: Net)
    requires Runs(hash, net, choices, end) && forall p | p in net.flight :: IsGossip(p.msg)
    ensures |choices| + Load(end.flight) <= Load(net.flight)
    decreases |choices|
  {
    if choices != [] {
      DeliveryLightens(hash, net, choices[0]);
      RunsAreBounded(hash, DeliverAt(hash, net, choices[0]), choices[1..], end);
    }
  }

  // ----- rounds and distances -----

  /** Each network is what a finished round made of the one before. */
  ghost predicate Rounds(hash: HashFn, links: seq<(NodeId, NodeId)>, nets: seq<Net>) {
    forall i | 0 <= i < |nets| - 1 :: RoundAt(hash, links, nets, i)
  }

  ghost predicate RoundAt(hash: HashFn, links: seq<(NodeId, NodeId)>, nets: seq<Net>, i: nat)
    requires i + 1 < |nets|
  {
    Round(hash, links, nets[i], nets[i + 1])
  }

  /** The nodes at most `k` links away from `a`. */
  function Ball(nodes: set<NodeId>, links: seq<(NodeId, NodeId)>, a: NodeId, k: nat): set<NodeId> {
    if k == 0 then {a}
    else
      var near := Ball(nodes, links, a, k - 1);
      near + set b | b in nodes && exists c :: c in near && (c, b) in links
  }

  ghost predicate Holds(net: Net, a: NodeId, h: Hash) {
    a in net.nodes && h in net.nodes[a].store.catalog
  }

  /** One round keeps honesty and carries an artifact over every link. */
  lemma HopOverRound(hash: HashFn, universe: set<Hash>, links: seq<(NodeId, NodeId)>, nets: seq<Net>, i: nat)
    requires HexDigests(hash) && i + 1 < |nets| && Honest(hash, universe, nets[i]) && RoundAt(hash, links, nets, i)
    ensures Honest(hash, universe, nets[i + 1]) && nets[i + 1].nodes.Keys == nets[i].nodes.Keys
    ensures forall c, b, h | Holds(nets[i], c, h) && b in nets[i].nodes && (c == b || (c, b) in links) && h != hash([])
              :: Holds(nets[i + 1], b, h)
  {
    RoundDelivers(hash, universe, links, nets[i], nets[i + 1]);
    forall c, b, h | Holds(nets[i], c, h) && b in nets[i].nodes && (c == b || (c, b) in links) && h != hash([])
      ensures Holds(nets[i + 1], b, h)
    {
      assert hash(nets[i].nodes[c].store.files[h]) == h;
    }
  }

  lemma {:induction false} RoundsKeepHonesty(hash: HashFn, universe: set<Hash>, links: seq<(NodeId, NodeId)>,
          nets: seq<Net>, k: nat)
    requires HexDigests(hash) && k < |nets| && Rounds(hash, links, nets) && Honest(hash, universe, nets[0])
    ensures Honest(hash, universe, nets[k]) && nets[k].nodes.Keys == nets[0].nodes.Keys
  {
    hide Round, Honest;
    if k > 0 {
      RoundsKeepHonesty(hash, universe, links, nets, k - 1);
      HopOverRound(hash, universe, links, nets, k - 1);
    }
  }

  /** Whoever holds the artifact before round `i` passes it on to all it is linked to. */
  ghost predicate Spreads(nodes: set<NodeId>, links: seq<(NodeId, NodeId)>, nets: seq<Net>, i: nat, h: Hash)
    requires i + 1 < |nets|
  {
    forall c, b | Holds(nets[i], c, h) && b in nodes && (c == b || (c, b) in links) :: Holds(nets[i + 1], b, h)
  }

  lemma RoundSpreads(hash: HashFn, universe: set<Hash>, links: seq<(NodeId, NodeId)>, nets: seq<Net>, i: nat, h: Hash)
    requires HexDigests(hash) && i + 1 < |nets| && Rounds(hash, links, nets) && Honest(hash, universe, nets[0]) && h != hash([])
    ensures Spreads(nets[0].nodes.Keys, links, nets, i, h)
  {
    RoundsKeepHonesty(hash, universe, links, nets, i);
    HopOverRound(hash, universe, links, nets, i);
  }

  lemma {:induction false} SpreadFillsBall(nodes: set<NodeId>, links: seq<(NodeId, NodeId)>, nets: seq<Net>, k: nat,
          a: NodeId, b: NodeId, h: Hash)
    requires k < |nets| && forall i | 0 <= i < |nets| - 1 :: Spreads(nodes, links, nets, i, h)
    requires a in nodes && Holds(nets[0], a, h) && b in Ball(nodes, links, a, k)
    ensures Holds(nets[k], b, h)
    decreases k
  {
    if k > 0 {
      var c := LastHop(nodes, links, a, b, k);
      BallStaysInside(nodes, links, a, k);
      SpreadFillsBall(nodes, links, nets, k - 1, a, c, h);
      assert Spreads(nodes, links, nets, k - 1, h);
    }
  }

  /** After k rounds an artifact, the empty one excepted, has reached every node within k links. */
  lemma {:induction false} RoundsFillBall(hash: HashFn, universe: set<Hash>, links: seq<(NodeId, NodeId)>, nets: seq<Net>, k: nat,
          a: NodeId, b: NodeId, h: Hash)
    requires HexDigests(hash) && k < |nets| && Rounds(hash, links, nets) && Honest(hash, universe, nets[0])
    requires Holds(nets[0], a, h) && h != hash([]) && b in Ball(nets[0].nodes.Keys, links, a, k)
    ensures Holds(nets[k], b, h)
  {
    forall i | 0 <= i < |nets| - 1
      ensures Spreads(nets[0].nodes.Keys, links, nets, i, h)
    {
      RoundSpreads(hash, universe, links, nets, i, h);
    }
    SpreadFillsBall(nets[0].nodes.Keys, links, nets, k, a, b, h);
  }

  lemma LastHop(nodes: set<NodeId>, links: seq<(NodeId, NodeId)>, a: NodeId, b: NodeId, k: nat) returns (c: NodeId)
    requires k > 0 && b in Ball(nodes, links, a, k)
    ensures c in Ball(nodes, links, a, k - 1) && (c == b || (c, b) in links)
  {
    if b in Ball(nodes, links, a, k - 1) {
      c := b;
    } else {
      c :| c in Ball(nodes, links, a, k - 1) && (c, b) in links;
    }
  }

  lemma {:induction false} BallStaysInside(nodes: set<NodeId>, links: seq<(NodeId, NodeId)>, a: NodeId, k: nat)
    requires a in nodes
    ensures Ball(nodes, links, a, k) <= nodes
  {
    if k > 0 {
      BallStaysInside(nodes, links, a, k - 1);
    }
  }

  function Union(net: Net): set<Hash> {
    set a, h | a in net.nodes && h in net.nodes[a].store.catalog :: h
  }

  lemma InitiallyHonest(hash: HashFn, net: Net)
    requires net.flight == [] && forall a | a in net.nodes :: Intact(hash, net.nodes[a].store)
    ensures Honest(hash, Union(net), net)
  {
  }

  /** On a connected graph of diameter d, d rounds give every node exactly the union of what
      the nodes had (each may or may not know the empty artifact). */
  lemma {:induction false} DiameterRoundsGiveUnion(hash: HashFn, links: seq<(NodeId, NodeId)>, nets: seq<Net>, d: nat, b: NodeId)
    requires HexDigests(hash) && |nets| == d + 1 && Rounds(hash, links, nets)
    requires nets[0].flight == [] && forall a | a in nets[0].nodes :: Intact(hash, nets[0].nodes[a].store)
    requires forall a | a in nets[0].nodes :: Ball(nets[0].nodes.Keys, links, a, d) == nets[0].nodes.Keys
    requires b in nets[0].nodes
    ensures b in nets[d].nodes
    ensures nets[d].nodes[b].store.catalog.Keys - {hash([])} == Union(nets[0]) - {hash([])}
  {
    hide Round, Rounds, Intact, Ball;
    var universe := Union(nets[0]);
    InitiallyHonest(hash, nets[0]);
    RoundsKeepHonesty(hash, universe, links, nets, d);
    assert HonestNode(hash, universe, nets[d].nodes[b]);
    forall h | h in universe && h != hash([])
      ensures Holds(nets[d], b, h)
    {
      var a :| a in nets[0].nodes && h in nets[0].nodes[a].store.catalog;
      RoundsFillBall(hash, universe, links, nets, d, a, b, h);
    }
    forall h
      ensures h in nets[d].nodes[b].store.catalog.Keys - {hash([])} <==> h in universe - {hash([])}
    {
      if h in universe && h != hash([]) {
        assert Holds(nets[d], b, h);
      }
    }
  }
}
