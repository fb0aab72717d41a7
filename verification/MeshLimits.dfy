/** Gossip through the gates: a message passes a node's rate limit and authentication or is dropped. A dropped
    message costs a round, not convergence. */
module MeshLimits {
  import opened ArtifactStore
  import opened MeshNode
  import opened MeshNetwork
  import opened MeshGossip
  import opened MeshConvergence
  import RateLimit

  /** Deliver the k-th message in flight at a given time, gates and all. */
  function GatedAt(hash: HashFn, net: Net, k: nat, now: real): Net
    requires k < |net.flight|
  {
    var p := net.flight[k];
    var rest := Remove(net.flight, k);
    if p.dst !in net.nodes then Net(net.nodes, rest)
    else
      var (n, outs) := Receive(hash, net.nodes[p.dst], p.src, p.msg, now);
      Net(net.nodes[p.dst := n], rest + Addressed(p.dst, p.src, outs))
  }

  /** Handshakes always pass, other messages if their sender is authenticated and fewer than 100 of its messages
      are on record for the last 60 seconds. */
  predicate Passes(n: NodeState, sender: NodeId, msg: Message, now: real) {
    || msg.Handshake? || msg.HandshakeAck?
    || (sender in n.auth && |RateLimit.Prune(RateLimit.Times(n.rates, sender), now)| < RateLimit.MSG_RATE_LIMIT)
  }

  predicate PassesAt(net: Net, k: nat, now: real)
    requires k < |net.flight|
  {
    var p := net.flight[k];
    p.dst in net.nodes ==> Passes(net.nodes[p.dst], p.src, p.msg, now)
  }

  /** The network without what the limiters have on record. */
  function Unrated(net: Net): Net {
    Net(map a | a in net.nodes :: net.nodes[a].(rates := map[]), net.flight)
  }

  // ----- one message -----

  lemma HandleIgnoresRates(hash: HashFn, n: NodeState, rates: RateLimit.Rates, sender: NodeId, msg: Message)
    ensures var (n', outs) := Handle(hash, n, sender, msg); Handle(hash, n.(rates := rates), sender, msg) == (n'.(rates := rates), outs)
  {
    hide SendCatalog, Put, Wanted, Has, Without, Enlist, AgentsOf;
  }

  /** A message that passes does what its handler does; one that is dropped leaves the node as it was, what it is
      waiting for included. */
  lemma {:induction false} GatesPassOrDrop(hash: HashFn, n: NodeState, sender: NodeId, msg: Message, now: real)
    ensures var (n', outs) := Receive(hash, n, sender, msg, now);
            var (h, sent) := Handle(hash, n, sender, msg);
            if Passes(n, sender, msg, now) then n'.(rates := map[]) == h.(rates := map[]) && outs == sent
            else n'.(rates := map[]) == n.(rates := map[]) && outs == []
  {
    hide Handle, RateLimit.Prune;
    var (rates, passed) := RateLimit.Check(n.rates, sender, now);
    HandleIgnoresRates(hash, n, rates, sender, msg);
  }

  /** Up to the records of the limiters, delivering through the gates is delivering if the message passes, and
      losing it if not. */
  lemma {:induction false} GatedIsDelivered(hash: HashFn, net: Net, k: nat, now: real)
    requires k < |net.flight|
    ensures PassesAt(net, k, now) ==> Unrated(GatedAt(hash, net, k, now)) == DeliverAt(hash, Unrated(net), k)
    ensures !PassesAt(net, k, now) ==> Unrated(GatedAt(hash, net, k, now)) == Net(Unrated(net).nodes, Remove(net.flight, k))
  {
    hide Handle, Receive, Passes;
    var p := net.flight[k];
    if p.dst in net.nodes {
      GatesPassOrDrop(hash, net.nodes[p.dst], p.src, p.msg, now);
      HandleIgnoresRates(hash, net.nodes[p.dst], map[], p.src, p.msg);
    }
  }

  // ----- runs -----

  datatype Choice = Choice(k: nat, now: real)

  ghost predicate GatedRuns(hash: HashFn, net: Net, choices: seq<Choice>, end: Net)
    decreases |choices|
  {
    if choices == [] then end == net
    else choices[0].k < |net.flight| && GatedRuns(hash, GatedAt(hash, net, choices[0].k, choices[0].now), choices[1..], end)
  }

  /** No message of the run is dropped. */
  ghost predicate AllPass(hash: HashFn, net: Net, choices: seq<Choice>)
    decreases |choices|
  {
    choices == []
    || (choices[0].k < |net.flight| && PassesAt(net, choices[0].k, choices[0].now)
        && AllPass(hash, GatedAt(hash, net, choices[0].k, choices[0].now), choices[1..]))
  }

  function Places(choices: seq<Choice>): seq<nat> {
    if choices == [] then [] else [choices[0].k] + Places(choices[1..])
  }

  /** A run in which every message passes is a run without gates. */
  lemma {:induction false} PassingRunIsRun(hash: HashFn, net: Net, choices: seq<Choice>, end: Net)
    requires GatedRuns(hash, net, choices, end) && AllPass(hash, net, choices)
    ensures Runs(hash, Unrated(net), Places(choices), Unrated(end))
    decreases |choices|
  {
    hide GatedAt, DeliverAt, PassesAt, Unrated;
    if choices != [] {
      SameFlight(net);
      GatedIsDelivered(hash, net, choices[0].k, choices[0].now);
      PassingRunIsRun(hash, GatedAt(hash, net, choices[0].k, choices[0].now), choices[1..], end);
      assert Places(choices)[0] == choices[0].k && Places(choices)[1..] == Places(choices[1..]);
    }
  }

  lemma SameFlight(net: Net)
    ensures Unrated(net).flight == net.flight
  {
  }

  ghost predicate Grown(net: Net, end: Net) {
    && end.nodes.Keys == net.nodes.Keys
    && forall a | a in net.nodes :: net.nodes[a].store.catalog.Keys <= end.nodes[a].store.catalog.Keys
  }

  lemma HonestUnrated(hash: HashFn, universe: set<Hash>, net: Net)
    ensures Honest(hash, universe, Unrated(net)) <==> Honest(hash, universe, net)
  {
    hide Intact;
    forall a | a in net.nodes
      ensures HonestNode(hash, universe, Unrated(net).nodes[a]) <==> HonestNode(hash, universe, net.nodes[a])
    {
    }
  }

  lemma GatedKeepsHonesty(hash: HashFn, universe: set<Hash>, net: Net, k: nat, now: real)
    requires Honest(hash, universe, net) && k < |net.flight|
    ensures Honest(hash, universe, GatedAt(hash, net, k, now)) && Grown(net, GatedAt(hash, net, k, now))
  {
    hide GatedAt, DeliverAt, Honest, HonestNode, PassesAt;
    var net' := GatedAt(hash, net, k, now);
    GatedIsDelivered(hash, net, k, now);
    HonestUnrated(hash, universe, net);
    HonestUnrated(hash, universe, net');
    if PassesAt(net, k, now) {
      DeliveryIsHonest(hash, universe, Unrated(net), k);
    } else {
      LosingIsHonest(hash, universe, Unrated(net), k);
    }
    GrownUnrated(net, net');
  }

  lemma LosingIsHonest(hash: HashFn, universe: set<Hash>, net: Net, k: nat)
    requires Honest(hash, universe, net) && k < |net.flight|
    ensures Honest(hash, universe, Net(net.nodes, Remove(net.flight, k)))
  {
  }

  lemma GrownUnrated(net: Net, end: Net)
    ensures Grown(Unrated(net), Unrated(end)) <==> Grown(net, end)
  {
    assert Unrated(net).nodes.Keys == net.nodes.Keys && Unrated(end).nodes.Keys == end.nodes.Keys;
  }

  /** Drops or not, a run keeps all stores intact and shrinks no catalog. */
  lemma {:induction false} GatedRunKeepsHonesty(hash: HashFn, universe: set<Hash>, net: Net, choices: seq<Choice>, end: Net)
    requires Honest(hash, universe, net) && GatedRuns(hash, net, choices, end)
    ensures Honest(hash, universe, end) && Grown(net, end)
    decreases |choices|
  {
    hide GatedAt, Honest;
    if choices != [] {
      GatedKeepsHonesty(hash, universe, net, choices[0].k, choices[0].now);
      GatedRunKeepsHonesty(hash, universe, GatedAt(hash, net, choices[0].k, choices[0].now), choices[1..], end);
    }
  }

  // ----- rounds -----

  /** A finished round through the gates; `clean` if none of its messages was dropped. */
  ghost predicate GatedRound(hash: HashFn, links: seq<(NodeId, NodeId)>, net: Net, end: Net, clean: bool) {
    end.flight == [] && exists choices :: GatedRuns(hash, StartRound(net, links), choices, end)
                                          && (clean ==> AllPass(hash, StartRound(net, links), choices))
  }

  lemma {:induction false} SamePackets(nodes: map<NodeId, NodeState>, others: map<NodeId, NodeState>, links: seq<(NodeId, NodeId)>)
    requires others.Keys == nodes.Keys && forall a | a in nodes :: others[a].store == nodes[a].store
    ensures CatalogPackets(others, links) == CatalogPackets(nodes, links)
  {
    hide SendCatalog;
    if links != [] {
      SamePackets(nodes, others, links[1..]);
    }
  }

  lemma CleanRoundIsRound(hash: HashFn, links: seq<(NodeId, NodeId)>, net: Net, end: Net)
    requires GatedRound(hash, links, net, end, true)
    ensures Round(hash, links, Unrated(net), Unrated(end))
  {
    hide GatedRuns, AllPass, Runs;
    var choices :| GatedRuns(hash, StartRound(net, links), choices, end) && AllPass(hash, StartRound(net, links), choices);
    SamePackets(net.nodes, Unrated(net).nodes, links);
    assert StartRound(Unrated(net), links) == Unrated(StartRound(net, links));
    PassingRunIsRun(hash, StartRound(net, links), choices, end);
  }

  lemma GatedRoundKeeps(hash: HashFn, universe: set<Hash>, links: seq<(NodeId, NodeId)>, net: Net, end: Net, clean: bool)
    requires Honest(hash, universe, net) && GatedRound(hash, links, net, end, clean)
    ensures Honest(hash, universe, end) && Grown(net, end)
  {
    hide GatedRuns, AllPass;
    var start := StartRound(net, links);
    CatalogPacketsAreHonest(hash, universe, net.nodes, links);
    var choices :| GatedRuns(hash, start, choices, end);
    GatedRunKeepsHonesty(hash, universe, start, choices, end);
  }

  /** A clean round carries every artifact, the empty one excepted, over every link. */
  lemma CleanRoundSpreads(hash: HashFn, universe: set<Hash>, links: seq<(NodeId, NodeId)>, net: Net, end: Net, h: Hash)
    requires HexDigests(hash) && Honest(hash, universe, net) && GatedRound(hash, links, net, end, true) && h != hash([])
    ensures forall c, b | Holds(net, c, h) && b in net.nodes && (c == b || (c, b) in links) :: Holds(end, b, h)
  {
    hide Round, GatedRound, Honest;
    var nets := [Unrated(net), Unrated(end)];
    CleanRoundIsRound(hash, links, net, end);
    HonestUnrated(hash, universe, net);
    assert RoundAt(hash, links, nets, 0);
    HopOverRound(hash, universe, links, nets, 0);
    HoldsUnrated(net, h);
    HoldsUnrated(end, h);
    assert Unrated(net).nodes.Keys == net.nodes.Keys;
  }

  lemma HoldsUnrated(net: Net, h: Hash)
    ensures forall a :: Holds(Unrated(net), a, h) <==> Holds(net, a, h)
  {
  }

  /** Rounds one after the other, of which `clean` says which had no message dropped. */
  ghost predicate GatedRounds(hash: HashFn, links: seq<(NodeId, NodeId)>, nets: seq<Net>, clean: seq<bool>) {
    |nets| == |clean| + 1 && forall i | 0 <= i < |clean| :: GatedRoundAt(hash, links, nets, clean, i)
  }

  ghost predicate GatedRoundAt(hash: HashFn, links: seq<(NodeId, NodeId)>, nets: seq<Net>, clean: seq<bool>, i: nat)
    requires i < |clean| && i + 1 < |nets|
  {
    GatedRound(hash, links, nets[i], nets[i + 1], clean[i])
  }

  /** How many of the first `k` rounds were clean. */
  function CleanRounds(clean: seq<bool>, k: nat): nat
    requires k <= |clean|
  {
    if k == 0 then 0 else CleanRounds(clean, k - 1) + if clean[k - 1] then 1 else 0
  }

  lemma {:induction false} GatedRoundsKeep(hash: HashFn, universe: set<Hash>, links: seq<(NodeId, NodeId)>, nets: seq<Net>,
          clean: seq<bool>, k: nat)
    requires GatedRounds(hash, links, nets, clean) && k <= |clean| && Honest(hash, universe, nets[0])
    ensures Honest(hash, universe, nets[k]) && Grown(nets[0], nets[k])
  {
    hide GatedRound, Honest;
    if k > 0 {
      GatedRoundsKeep(hash, universe, links, nets, clean, k - 1);
      assert GatedRoundAt(hash, links, nets, clean, k - 1);
      GatedRoundKeeps(hash, universe, links, nets[k - 1], nets[k], clean[k - 1]);
    }
  }

  /** Each clean round carries an artifact one link further, and no other round takes it back. */
  lemma {:induction false} CleanRoundsFillBall(hash: HashFn, universe: set<Hash>, links: seq<(NodeId, NodeId)>, nets: seq<Net>,
          clean: seq<bool>, k: nat, a: NodeId, b: NodeId, h: Hash)
    requires HexDigests(hash) && GatedRounds(hash, links, nets, clean) && k <= |clean| && Honest(hash, universe, nets[0])
    requires Holds(nets[0], a, h) && h != hash([]) && b in Ball(nets[0].nodes.Keys, links, a, CleanRounds(clean, k))
    ensures Holds(nets[k], b, h)
    decreases k
  {
    hide GatedRound, Honest, Ball;
    BallOfNone(nets[0].nodes.Keys, links, a);
    if k > 0 {
      var before := CleanRounds(clean, k - 1);
      GatedRoundsKeep(hash, universe, links, nets, clean, k - 1);
      assert GatedRoundAt(hash, links, nets, clean, k - 1);
      GatedRoundKeeps(hash, universe, links, nets[k - 1], nets[k], clean[k - 1]);
      if clean[k - 1] {
        var c := LastHop(nets[0].nodes.Keys, links, a, b, before + 1);
        BallStaysInside(nets[0].nodes.Keys, links, a, before + 1);
        CleanRoundsFillBall(hash, universe, links, nets, clean, k - 1, a, c, h);
        CleanRoundSpreads(hash, universe, links, nets[k - 1], nets[k], h);
      } else {
        CleanRoundsFillBall(hash, universe, links, nets, clean, k - 1, a, b, h);
      }
    }
  }

  lemma {:induction false} BallOfNone(nodes: set<NodeId>, links: seq<(NodeId, NodeId)>, a: NodeId)
    ensures Ball(nodes, links, a, 0) == {a}
  {
  }

  /** On a connected graph of diameter d, as soon as d rounds went through without a drop, whatever was dropped in
      the others, every node has exactly the union of what the nodes had at first (each may or may not know the
      empty artifact). */
  lemma {:induction false} DropsOnlyDelay(hash: HashFn, links: seq<(NodeId, NodeId)>, nets: seq<Net>, clean: seq<bool>, b: NodeId)
    requires HexDigests(hash) && GatedRounds(hash, links, nets, clean)
    requires nets[0].flight == [] && forall a | a in nets[0].nodes :: Intact(hash, nets[0].nodes[a].store)
    requires forall a | a in nets[0].nodes :: Ball(nets[0].nodes.Keys, links, a, CleanRounds(clean, |clean|)) == nets[0].nodes.Keys
    requires b in nets[0].nodes
    ensures b in nets[|clean|].nodes
    ensures nets[|clean|].nodes[b].store.catalog.Keys - {hash([])} == Union(nets[0]) - {hash([])}
  {
    hide GatedRounds, Intact, Ball, CleanRounds;
    RoundsLength(hash, links, nets, clean);
    var universe, k := Union(nets[0]), |clean|;
    InitiallyHonest(hash, nets[0]);
    GatedRoundsKeep(hash, universe, links, nets, clean, k);
    assert HonestNode(hash, universe, nets[k].nodes[b]);
    forall h | h in universe && h != hash([])
      ensures Holds(nets[k], b, h)
    {
      var a :| a in nets[0].nodes && h in nets[0].nodes[a].store.catalog;
      CleanRoundsFillBall(hash, universe, links, nets, clean, k, a, b, h);
    }
    forall h
      ensures h in nets[k].nodes[b].store.catalog.Keys - {hash([])} <==> h in universe - {hash([])}
    {
      if h in universe && h != hash([]) {
        assert Holds(nets[k], b, h);
      }
    }
  }

  lemma RoundsLength(hash: HashFn, links: seq<(NodeId, NodeId)>, nets: seq<Net>, clean: seq<bool>)
    requires GatedRounds(hash, links, nets, clean)
    ensures |nets| == |clean| + 1
  {
  }
}
