/** Nodes and the messages between them. One step delivers one message, in any order;
    the gates in front of the handlers are in `MeshLimits`. */
module MeshNetwork {
  import opened Wrappers
  import opened ArtifactStore
  import opened MeshNode

  datatype Packet = Packet(src: NodeId, dst: NodeId, msg: Message)

  datatype Net = Net(nodes: map<NodeId, NodeState>, flight: seq<Packet>)

  function Address(self: NodeId, back: NodeId, out: Out): Packet {
    match out
    case Reply(msg) => Packet(self, back, msg)
    case ToPeer(peer, msg) => Packet(self, peer, msg)
  }

  function Addressed(self: NodeId, back: NodeId, outs: seq<Out>): seq<Packet> {
    seq(|outs|, i requires 0 <= i < |outs| => Address(self, back, outs[i]))
  }

  function Remove<T>(s: seq<T>, k: nat): seq<T>
    requires k < |s|
  {
    s[..k] + s[k + 1..]
  }

  /** Deliver the k-th message in flight. */
  function DeliverAt(hash: HashFn, net: Net, k: nat): Net
    requires k < |net.flight|
  {
    var p := net.flight[k];
    var rest := Remove(net.flight, k);
    if p.dst !in net.nodes then Net(net.nodes, rest)
    else
      var (n, outs) := Handle(hash, net.nodes[p.dst], p.src, p.msg);
      Net(net.nodes[p.dst := n], rest + Addressed(p.dst, p.src, outs))
  }

  /** A run: each entry chooses the message delivered next. */
  ghost predicate Runs(hash: HashFn, net: Net, choices: seq<nat>, end: Net)
    decreases |choices|
  {
    if choices == [] then end == net
    else choices[0] < |net.flight| && Runs(hash, DeliverAt(hash, net, choices[0]), choices[1..], end)
  }

  // ----- networks whose nodes follow the protocol -----

  ghost predicate HonestMessage(hash: HashFn, universe: set<Hash>, msg: Message) {
    && (msg.CatalogSync? ==> |msg.entries| <= CATALOG_SYNC_BATCH)
    && (msg.ArtifactResponse? ==> msg.content != [] && msg.meta.Some? && hash(msg.content) == msg.hash && msg.hash in universe)
  }

  ghost predicate HonestNode(hash: HashFn, universe: set<Hash>, n: NodeState) {
    Intact(hash, n.store) && n.store.catalog.Keys <= universe
  }

  ghost predicate Honest(hash: HashFn, universe: set<Hash>, net: Net) {
    && (forall a | a in net.nodes :: HonestNode(hash, universe, net.nodes[a]))
    && (forall p | p in net.flight :: HonestMessage(hash, universe, p.msg))
  }

  lemma OthersKeepStore(hash: HashFn, n: NodeState, sender: NodeId, msg: Message)
    requires !msg.ArtifactResponse?
    ensures Handle(hash, n, sender, msg).0.store == n.store
  {
    hide SendCatalog, Wanted, Has, Broadcast, Volunteers, Enlist, AgentsOf, Without, AddPeer;
  }

  lemma HandleKeepsHonestNode(hash: HashFn, universe: set<Hash>, n: NodeState, sender: NodeId, msg: Message)
    requires HonestNode(hash, universe, n) && HonestMessage(hash, universe, msg)
    ensures var n' := Handle(hash, n, sender, msg).0;
            && HonestNode(hash, universe, n')
            && n.store.catalog.Keys <= n'.store.catalog.Keys
            && (forall h | h in n.store.files :: h in n'.store.files && n'.store.files[h] == n.store.files[h])
  {
    hide Intact, OnMissionBroadcast, OnMissionJoin, OnMissionResult, OnMissionStatus, OnHandshake, OnHandshakeAck, OnCatalogSync,
      OnArtifactRequest, OnArtifactAnnounce, SendCatalog;
    if !msg.ArtifactResponse? {
      OthersKeepStore(hash, n, sender, msg);
    } else if msg.meta.Some? {
      PutKeepsIntact(hash, n.store, msg.content, msg.meta.value);
    }
  }

  lemma HandleSendsHonestly(hash: HashFn, universe: set<Hash>, n: NodeState, sender: NodeId, msg: Message)
    requires HonestNode(hash, universe, n)
    ensures forall o | o in Handle(hash, n, sender, msg).1 :: HonestMessage(hash, universe, o.msg)
  {
    SendCatalogIsSmall(n.store);
    forall o | o in Handle(hash, n, sender, msg).1
      ensures HonestMessage(hash, universe, o.msg)
    {
      if o.msg.CatalogSync? {
        assert o.msg in SendCatalog(n.store);
      } else if o.msg.ArtifactResponse? {
        assert msg.ArtifactRequest? && o.msg.content == n.store.files[msg.hash];
      }
    }
  }

  lemma DeliveryIsHonest(hash: HashFn, universe: set<Hash>, net: Net, k: nat)
    requires Honest(hash, universe, net) && k < |net.flight|
    ensures Honest(hash, universe, DeliverAt(hash, net, k))
    ensures DeliverAt(hash, net, k).nodes.Keys == net.nodes.Keys
    ensures forall a | a in net.nodes :: net.nodes[a].store.catalog.Keys <= DeliverAt(hash, net, k).nodes[a].store.catalog.Keys
  {
    hide Handle, HonestMessage, Intact;
    var p := net.flight[k];
    if p.dst in net.nodes {
      HandleKeepsHonestNode(hash, universe, net.nodes[p.dst], p.src, p.msg);
      HandleSendsHonestly(hash, universe, net.nodes[p.dst], p.src, p.msg);
      var (n, outs) := Handle(hash, net.nodes[p.dst], p.src, p.msg);
      forall q | q in DeliverAt(hash, net, k).flight
        ensures HonestMessage(hash, universe, q.msg)
      {
        if q in Addressed(p.dst, p.src, outs) {
          var i :| 0 <= i < |outs| && q == Address(p.dst, p.src, outs[i]);
          assert outs[i] in outs;
        }
      }
    }
  }
}
