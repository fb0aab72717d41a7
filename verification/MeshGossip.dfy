/** Catalog gossip converges: whatever the order of deliveries, a finished round gives every
    receiver all of the sender's non-empty artifacts, and rounds carry artifacts one hop each. */
module MeshGossip {
  import opened Wrappers
  import opened ArtifactStore
  import opened MeshNode
  import opened MeshNetwork

  ghost predicate Announced(p: Packet, a: NodeId, b: NodeId, h: Hash) {
    && p.src == a && p.dst == b && p.msg.CatalogSync?
    && exists i :: 0 <= i < |p.msg.entries| && p.msg.entries[i].hash == h
  }

  ghost predicate Answers(p: Packet, a: NodeId, b: NodeId, h: Hash) {
    p.src == a && p.dst == b && p.msg.ArtifactResponse? && p.msg.hash == h
  }

  /** `b` has the artifact, or a chain of messages that ends with `b` having it is under way. */
  ghost predicate Covered(net: Net, a: NodeId, b: NodeId, h: Hash)
    requires b in net.nodes
  {
    || h in net.nodes[b].store.catalog
    || (exists p :: p in net.flight && Announced(p, a, b, h))
    || (h in net.nodes[b].pending
        && (Packet(b, a, ArtifactRequest(h)) in net.flight || exists p :: p in net.flight && Answers(p, a, b, h)))
  }

  /** `a` can serve the artifact. */
  ghost predicate Serves(hash: HashFn, n: NodeState, h: Hash) {
    IsDigest(h) && h in n.store.files && n.store.files[h] != [] && h in n.store.catalog
  }

  lemma OthersStayInFlight(hash: HashFn, net: Net, k: nat, q: Packet)
    requires k < |net.flight| && q in net.flight && q != net.flight[k]
    ensures q in DeliverAt(hash, net, k).flight
  {
  }

  lemma AnswerIsInFlight(hash: HashFn, net: Net, k: nat, out: Out)
    requires k < |net.flight| && net.flight[k].dst in net.nodes
    requires var p := net.flight[k]; out in Handle(hash, net.nodes[p.dst], p.src, p.msg).1
    ensures var p := net.flight[k]; Address(p.dst, p.src, out) in DeliverAt(hash, net, k).flight
  {
    var p := net.flight[k];
    var outs := Handle(hash, net.nodes[p.dst], p.src, p.msg).1;
    var i :| 0 <= i < |outs| && outs[i] == out;
    assert Addressed(p.dst, p.src, outs)[i] == Address(p.dst, p.src, out);
  }

  /** A pending hash stays pending until the artifact is there: honest answers are never refused. */
  lemma PendingUntilStored(hash: HashFn, universe: set<Hash>, n: NodeState, sender: NodeId, msg: Message, h: Hash)
    requires HonestMessage(hash, universe, msg)
    requires h in n.pending || h in n.store.catalog
    ensures var n' := Handle(hash, n, sender, msg).0; h in n'.store.catalog || (h !in n.store.catalog && h in n'.pending)
    ensures msg.ArtifactResponse? && msg.hash == h ==> h in Handle(hash, n, sender, msg).0.store.catalog
  {
  }

  /** The delivered message is the one the cover rests on. */
  lemma CoverMovesOn(hash: HashFn, universe: set<Hash>, net: Net, k: nat, a: NodeId, b: NodeId, h: Hash)
    requires Honest(hash, universe, net) && k < |net.flight|
    requires a in net.nodes && b in net.nodes && a != b && Serves(hash, net.nodes[a], h)
    requires var p := net.flight[k];
             || Announced(p, a, b, h)
             || (h in net.nodes[b].pending && (p == Packet(b, a, ArtifactRequest(h)) || Answers(p, a, b, h)))
    ensures b in DeliverAt(hash, net, k).nodes && Covered(DeliverAt(hash, net, k), a, b, h)
  {
    var p := net.flight[k];
    var n := net.nodes[b];
    if h in n.store.catalog || Answers(p, a, b, h) {
      PendingUntilStored(hash, universe, n, p.src, p.msg, h);
    } else if Announced(p, a, b, h) {
      BatchIsRequestedWhole(n, p.msg.entries, h);
      AnswerIsInFlight(hash, net, k, Reply(ArtifactRequest(h)));
    } else {
      var reply := Reply(ArtifactResponse(h, net.nodes[a].store.files[h], Some(net.nodes[a].store.catalog[h])));
      AnswerIsInFlight(hash, net, k, reply);
      assert Answers(Address(a, b, reply), a, b, h);
    }
  }

  /** The cover rests on another message, or on the artifact itself. */
  lemma CoverStays(hash: HashFn, universe: set<Hash>, net: Net, k: nat, a: NodeId, b: NodeId, h: Hash, q: Packet)
    requires Honest(hash, universe, net) && k < |net.flight| && b in net.nodes
    requires h in net.nodes[b].store.catalog
          || (q in net.flight && q != net.flight[k]
              && (Announced(q, a, b, h) || (h in net.nodes[b].pending && (q == Packet(b, a, ArtifactRequest(h)) || Answers(q, a, b, h)))))
    ensures b in DeliverAt(hash, net, k).nodes && Covered(DeliverAt(hash, net, k), a, b, h)
  {
    var p := net.flight[k];
    if h !in net.nodes[b].store.catalog {
      OthersStayInFlight(hash, net, k, q);
    }
    if p.dst == b && (h in net.nodes[b].store.catalog || h in net.nodes[b].pending) {
      PendingUntilStored(hash, universe, net.nodes[b], p.src, p.msg, h);
    }
  }

  lemma CoverSurvivesDelivery(hash: HashFn, universe: set<Hash>, net: Net, k: nat, a: NodeId, b: NodeId, h: Hash)
    requires Honest(hash, universe, net) && k < |net.flight|
    requires a in net.nodes && b in net.nodes && a != b && Serves(hash, net.nodes[a], h) && Covered(net, a, b, h)
    ensures b in DeliverAt(hash, net, k).nodes && Covered(DeliverAt(hash, net, k), a, b, h)
  {
    if h in net.nodes[b].store.catalog {
      CoverStays(hash, universe, net, k, a, b, h, net.flight[k]);
    } else {
      var q :| q in net.flight && (Announced(q, a, b, h) || (h in net.nodes[b].pending && (q == Packet(b, a, ArtifactRequest(h)) || Answers(q, a, b, h))));
      if q == net.flight[k] {
        CoverMovesOn(hash, universe, net, k, a, b, h);
      } else {
        CoverStays(hash, universe, net, k, a, b, h, q);
      }
    }
  }

  lemma ServesSurvivesDelivery(hash: HashFn, universe: set<Hash>, net: Net, k: nat, a: NodeId, h: Hash)
    requires Honest(hash, universe, net) && k < |net.flight| && a in net.nodes && Serves(hash, net.nodes[a], h)
    ensures a in DeliverAt(hash, net, k).nodes && Serves(hash, DeliverAt(hash, net, k).nodes[a], h)
  {
    var p := net.flight[k];
    if p.dst == a {
      HandleKeepsHonestNode(hash, universe, net.nodes[a], p.src, p.msg);
    }
  }

  // ----- runs -----

  lemma {:induction false} RunsKeepHonesty(hash: HashFn, universe: set<Hash>, net: Net, choices: seq<nat>, end: Net)
    requires Honest(hash, universe, net) && Runs(hash, net, choices, end)
    ensures Honest(hash, universe, end) && end.nodes.Keys == net.nodes.Keys
    ensures forall a | a in net.nodes :: net.nodes[a].store.catalog.Keys <= end.nodes[a].store.catalog.Keys
    decreases |choices|
  {
    if choices != [] {
      DeliveryIsHonest(hash, universe, net, choices[0]);
      RunsKeepHonesty(hash, universe, DeliverAt(hash, net, choices[0]), choices[1..], end);
    }
  }

  lemma {:induction false} CoverEndsInStore(hash: HashFn, universe: set<Hash>, net: Net, choices: seq<nat>, end: Net,
          a: NodeId, b: NodeId, h: Hash)
    requires Honest(hash, universe, net) && Runs(hash, net, choices, end) && end.flight == []
    requires a in net.nodes && b in net.nodes && a != b && Serves(hash, net.nodes[a], h) && Covered(net, a, b, h)
    ensures b in end.nodes && h in end.nodes[b].store.catalog
    decreases |choices|
  {
    if choices != [] {
      var k := choices[0];
      DeliveryIsHonest(hash, universe, net, k);
      CoverSurvivesDelivery(hash, universe, net, k, a, b, h);
      ServesSurvivesDelivery(hash, universe, net, k, a, h);
      CoverEndsInStore(hash, universe, DeliverAt(hash, net, k), choices[1..], end, a, b, h);
    }
  }

  // ----- a gossip round -----

  /** The catalog messages of one gossip tick, for each link (sender, receiver). */
  function CatalogPackets(nodes: map<NodeId, NodeState>, links: seq<(NodeId, NodeId)>): seq<Packet> {
    if links == [] then []
    else if links[0].0 !in nodes then CatalogPackets(nodes, links[1..])
    else Addressed(links[0].0, links[0].1, Replies(SendCatalog(nodes[links[0].0].store))) + CatalogPackets(nodes, links[1..])
  }

  function StartRound(net: Net, links: seq<(NodeId, NodeId)>): Net {
    Net(net.nodes, net.flight + CatalogPackets(net.nodes, links))
  }

  /** A round that ran to the end: all messages delivered, in some order. */
  ghost predicate Round(hash: HashFn, links: seq<(NodeId, NodeId)>, net: Net, end: Net) {
    end.flight == [] && exists choices :: Runs(hash, StartRound(net, links), choices, end)
  }

  lemma {:induction false} CatalogPacketsAreHonest(hash: HashFn, universe: set<Hash>, nodes: map<NodeId, NodeState>,
          links: seq<(NodeId, NodeId)>)
    ensures forall p | p in CatalogPackets(nodes, links) :: HonestMessage(hash, universe, p.msg)
  {
    if links != [] {
      CatalogPacketsAreHonest(hash, universe, nodes, links[1..]);
      if links[0].0 in nodes {
        SendCatalogIsSmall(nodes[links[0].0].store);
      }
    }
  }

  lemma {:induction false} CatalogPacketsAnnounce(hash: HashFn, nodes: map<NodeId, NodeState>,
          links: seq<(NodeId, NodeId)>, a: NodeId, b: NodeId, h: Hash)
    requires a in nodes && (a, b) in links && Intact(hash, nodes[a].store) && h in nodes[a].store.catalog
    ensures exists p :: p in CatalogPackets(nodes, links) && Announced(p, a, b, h)
  {
    if links[0] == (a, b) {
      var msgs := SendCatalog(nodes[a].store);
      CatalogIsAnnounced(hash, nodes[a].store, h);
      var k :| 0 <= k < |msgs| && msgs[k].CatalogSync? && exists i :: 0 <= i < |msgs[k].entries| && msgs[k].entries[i].hash == h;
      var packets := Addressed(a, b, Replies(msgs));
      assert packets[k] == Packet(a, b, msgs[k]);
      assert Announced(packets[k], a, b, h);
      assert packets[k] in CatalogPackets(nodes, links);
    } else {
      CatalogPacketsAnnounce(hash, nodes, links[1..], a, b, h);
    }
  }

  /** After a finished round every receiver holds every non-empty artifact its sender had,
      no catalog lost anything, and no catalog holds anything from outside the network. */
  lemma RoundDelivers(hash: HashFn, universe: set<Hash>, links: seq<(NodeId, NodeId)>, net: Net, end: Net)
    requires HexDigests(hash) && Honest(hash, universe, net) && Round(hash, links, net, end)
    ensures Honest(hash, universe, end) && end.nodes.Keys == net.nodes.Keys
    ensures forall a | a in net.nodes :: net.nodes[a].store.catalog.Keys <= end.nodes[a].store.catalog.Keys
    ensures forall a, b, h | (a, b) in links && a in net.nodes && b in net.nodes && h in net.nodes[a].store.catalog && net.nodes[a].store.files[h] != []
              :: h in end.nodes[b].store.catalog
  {
    var start := StartRound(net, links);
    CatalogPacketsAreHonest(hash, universe, net.nodes, links);
    var choices :| Runs(hash, start, choices, end);
    RunsKeepHonesty(hash, universe, start, choices, end);
    forall a, b, h | (a, b) in links && a in net.nodes && b in net.nodes && h in net.nodes[a].store.catalog && net.nodes[a].store.files[h] != []
      ensures h in end.nodes[b].store.catalog
    {
      if a != b {
        CatalogPacketsAnnounce(hash, net.nodes, links, a, b, h);
        assert hash(net.nodes[a].store.files[h]) == h;
        CoverEndsInStore(hash, universe, start, choices, end, a, b, h);
      }
    }
  }
}
