/** What travels with an artifact and with a mission: the name, project and date somebody gave the artifact, and the
    objective and number of agents the broadcaster gave the mission. */
module MeshLabels {
  import opened Wrappers
  import opened ArtifactStore
  import opened MeshNode
  import opened MeshNetwork
  import opened MeshGossip
  import opened MeshConvergence

  // ----- artifacts -----

  datatype Label = Label(filename: string, project: string, createdAt: real)

  function LabelOf(meta: MetaData): Label {
    Label(meta.filename, meta.project, meta.createdAt)
  }

  /** What is stored under a new hash is the content with the label it came with, its own hash and its own length;
      nothing else changes. */
  lemma StoredExactly(hash: HashFn, s: StoreState, content: Bytes, meta: MetaData)
    ensures var t, h := Put(hash, s, content, meta), hash(content);
            && h in t.catalog && t.catalog[h] == MetaData(h, |content|, meta.filename, meta.project, meta.createdAt)
            && h in t.files && (h !in s.files ==> t.files[h] == content)
            && (forall k | k != h :: (k in t.catalog <==> k in s.catalog) && (k in t.files <==> k in s.files))
            && (forall k | k in s.catalog && k != h :: t.catalog[k] == s.catalog[k])
            && t.order == if h in s.catalog then s.order else s.order + [h]
  {
  }

  /** A catalog entry that is sent names the hash, size and label on record. */
  lemma SentExactly(s: StoreState, i: nat)
    requires (forall h | h in s.order :: h in s.catalog) && i < |s.order|
    ensures |Summary(s)| == |s.order|
    ensures var e, h := Summary(s)[i], s.order[i];
            && e.hash == h && e.size == s.catalog[h].size && e.filename == s.catalog[h].filename
            && e.project == s.catalog[h].project && e.createdAt == s.catalog[h].createdAt
  {
  }

  /** A request is answered exactly if content that is not empty and an entry are there, with both. */
  lemma {:induction false} AnsweredExactly(n: NodeState, h: Hash, o: Out)
    ensures OnArtifactRequest(n, h).0 == n
    ensures o in OnArtifactRequest(n, h).1
            <==> && h in n.store.catalog && h in n.store.files && n.store.files[h] != [] && ValidHash(h)
                 && o == Reply(ArtifactResponse(h, n.store.files[h], Some(n.store.catalog[h])))
  {
  }

  /** An announced hash becomes pending and is asked for exactly if it is not empty and there is no file for it. */
  lemma {:induction false} AnnouncedExactly(n: NodeState, h: Hash)
    ensures OnArtifactAnnounce(n, h)
         == if h != "" && Retrieve(n.store, h).None? then (n.(pending := n.pending + {h}), [Reply(ArtifactRequest(h))]) else (n, [])
  {
  }

  /** An answer to an open request closes it, and is stored exactly if it has content and metadata and the content has the
      hash asked for; any other answer does nothing. */
  lemma {:induction false} ReceivedExactly(hash: HashFn, n: NodeState, sender: NodeId, msg: Message)
    requires msg.ArtifactResponse?
    ensures var (n', outs) := Handle(hash, n, sender, msg);
            && outs == []
            && (msg.hash !in n.pending ==> n' == n)
            && (msg.hash in n.pending ==>
                  && n'.pending == n.pending - {msg.hash}
                  && n' == n.(pending := n'.pending, store := n'.store)
                  && n'.store == if msg.content != [] && msg.meta.Some? && hash(msg.content) == msg.hash
                                 then Put(hash, n.store, msg.content, msg.meta.value) else n.store)
  {
    hide Put;
  }

  /** Publishing stores the content and tells every peer its hash, in the order of the peer table. */
  lemma {:induction false} PublishedExactly(hash: HashFn, n: NodeState, content: Bytes, meta: MetaData)
    ensures var (n', outs) := Publish(hash, n, content, meta);
            && n' == n.(store := Put(hash, n.store, content, meta))
            && |outs| == |n.peers| && forall i | 0 <= i < |outs| :: outs[i] == ToPeer(n.peers[i], ArtifactAnnounce(hash(content)))
  {
    hide Put;
  }

  /** What `labels` allows to be said about a hash. */
  ghost predicate Labelled(net: Net, labels: iset<(Hash, Label)>) {
    && (forall a, h | a in net.nodes && h in net.nodes[a].store.catalog :: (h, LabelOf(net.nodes[a].store.catalog[h])) in labels)
    && (forall p | p in net.flight && p.msg.ArtifactResponse? && p.msg.meta.Some? :: (p.msg.hash, LabelOf(p.msg.meta.value)) in labels)
  }

  lemma {:induction false} HandleIsLabelled(hash: HashFn, n: NodeState, sender: NodeId, msg: Message, labels: iset<(Hash, Label)>)
    requires forall h | h in n.store.catalog :: (h, LabelOf(n.store.catalog[h])) in labels
    requires msg.ArtifactResponse? && msg.meta.Some? ==> (msg.hash, LabelOf(msg.meta.value)) in labels
    ensures var (n', outs) := Handle(hash, n, sender, msg);
            && (forall h | h in n'.store.catalog :: (h, LabelOf(n'.store.catalog[h])) in labels)
            && (forall o | o in outs && o.msg.ArtifactResponse? && o.msg.meta.Some? :: (o.msg.hash, LabelOf(o.msg.meta.value)) in labels)
  {
    hide SendCatalog, Wanted, Has, Without, Enlist, AgentsOf, Volunteers, AddPeer;
    SendCatalogIsSmall(n.store);
    if !msg.ArtifactResponse? {
      OthersKeepStore(hash, n, sender, msg);
    }
  }

  lemma {:induction false} DeliveryIsLabelled(hash: HashFn, net: Net, k: nat, labels: iset<(Hash, Label)>)
    requires Labelled(net, labels) && k < |net.flight|
    ensures Labelled(DeliverAt(hash, net, k), labels)
  {
    hide Handle;
    var p := net.flight[k];
    assert p in net.flight;
    if p.dst in net.nodes {
      HandleIsLabelled(hash, net.nodes[p.dst], p.src, p.msg, labels);
      var outs := Handle(hash, net.nodes[p.dst], p.src, p.msg).1;
      forall q | q in DeliverAt(hash, net, k).flight && q.msg.ArtifactResponse? && q.msg.meta.Some?
        ensures (q.msg.hash, LabelOf(q.msg.meta.value)) in labels
      {
        if q in Addressed(p.dst, p.src, outs) {
          var i :| 0 <= i < |outs| && q == Address(p.dst, p.src, outs[i]);
          assert outs[i] in outs;
        }
      }
    }
  }

  lemma {:induction false} RunIsLabelled(hash: HashFn, net: Net, choices: seq<nat>, end: Net, labels: iset<(Hash, Label)>)
    requires Labelled(net, labels) && Runs(hash, net, choices, end)
    ensures Labelled(end, labels)
    decreases |choices|
  {
    hide DeliverAt, Labelled;
    if choices != [] {
      DeliveryIsLabelled(hash, net, choices[0], labels);
      RunIsLabelled(hash, DeliverAt(hash, net, choices[0]), choices[1..], end, labels);
    }
  }

  lemma {:induction false} CatalogsCarryNoLabels(nodes: map<NodeId, NodeState>, links: seq<(NodeId, NodeId)>)
    ensures forall p | p in CatalogPackets(nodes, links) :: p.msg.CatalogSync?
  {
    hide SendCatalog;
    if links != [] {
      CatalogsCarryNoLabels(nodes, links[1..]);
      if links[0].0 in nodes {
        SendCatalogIsSmall(nodes[links[0].0].store);
      }
    }
  }

  lemma {:induction false} RoundsAreLabelled(hash: HashFn, links: seq<(NodeId, NodeId)>, nets: seq<Net>, k: nat, labels: iset<(Hash, Label)>)
    requires k < |nets| && Rounds(hash, links, nets) && Labelled(nets[0], labels)
    ensures Labelled(nets[k], labels)
  {
    hide Runs, Labelled;
    if k > 0 {
      RoundsAreLabelled(hash, links, nets, k - 1, labels);
      assert RoundAt(hash, links, nets, k - 1);
      var start := StartRound(nets[k - 1], links);
      var choices :| Runs(hash, start, choices, nets[k]);
      CatalogsCarryNoLabels(nets[k - 1].nodes, links);
      StartIsLabelled(nets[k - 1], links, labels);
      RunIsLabelled(hash, start, choices, nets[k], labels);
    }
  }

  lemma {:induction false} StartIsLabelled(net: Net, links: seq<(NodeId, NodeId)>, labels: iset<(Hash, Label)>)
    requires Labelled(net, labels) && forall p | p in CatalogPackets(net.nodes, links) :: p.msg.CatalogSync?
    ensures Labelled(StartRound(net, links), labels)
  {
  }

  /** Whatever the rounds, an entry anywhere has the file name, project and date that some node had for that hash
      at the start. */
  lemma {:induction false} LabelsAreGiven(hash: HashFn, links: seq<(NodeId, NodeId)>, nets: seq<Net>, k: nat, b: NodeId, h: Hash)
    requires k < |nets| && Rounds(hash, links, nets) && nets[0].flight == []
    requires b in nets[k].nodes && h in nets[k].nodes[b].store.catalog
    ensures exists a :: a in nets[0].nodes && h in nets[0].nodes[a].store.catalog
                        && var was, now := nets[0].nodes[a].store.catalog[h], nets[k].nodes[b].store.catalog[h];
                           was.filename == now.filename && was.project == now.project && was.createdAt == now.createdAt
  {
    hide Rounds;
    var labels := iset a, g | a in nets[0].nodes && g in nets[0].nodes[a].store.catalog :: (g, LabelOf(nets[0].nodes[a].store.catalog[g]));
    RoundsAreLabelled(hash, links, nets, k, labels);
    assert (h, LabelOf(nets[k].nodes[b].store.catalog[h])) in labels;
  }

  // ----- missions -----

  /** All that is on record or under way about the mission has this objective and this number of agents. */
  ghost predicate Uniform(net: Net, m: string, objective: string, required: int) {
    && (forall u | u in net.nodes && m in net.nodes[u].missions ::
          net.nodes[u].missions[m].objective == objective && net.nodes[u].missions[m].required == required)
    && (forall p | p in net.flight && p.msg.MissionBroadcast? && p.msg.mission == m :: p.msg.objective == objective && p.msg.required == required)
  }

  lemma {:induction false} HandleIsUniform(hash: HashFn, n: NodeState, sender: NodeId, msg: Message, m: string, objective: string, required: int)
    requires m in n.missions ==> n.missions[m].objective == objective && n.missions[m].required == required
    requires msg.MissionBroadcast? && msg.mission == m ==> msg.objective == objective && msg.required == required
    ensures var (n', outs) := Handle(hash, n, sender, msg);
            && (m in n'.missions ==> n'.missions[m].objective == objective && n'.missions[m].required == required)
            && (forall o | o in outs && o.msg.MissionBroadcast? && o.msg.mission == m :: o.msg.objective == objective && o.msg.required == required)
  {
    hide SendCatalog, Wanted, Has, Without, Enlist, AgentsOf, Volunteers, AddPeer, Put;
    SendCatalogIsSmall(n.store);
  }

  /** Delivering any message keeps it so. */
  lemma {:induction false} DeliveryIsUniform(hash: HashFn, net: Net, k: nat, m: string, objective: string, required: int)
    requires Uniform(net, m, objective, required) && k < |net.flight|
    ensures Uniform(DeliverAt(hash, net, k), m, objective, required)
  {
    hide Handle;
    var p := net.flight[k];
    assert p in net.flight;
    if p.dst in net.nodes {
      HandleIsUniform(hash, net.nodes[p.dst], p.src, p.msg, m, objective, required);
      var outs := Handle(hash, net.nodes[p.dst], p.src, p.msg).1;
      forall q | q in DeliverAt(hash, net, k).flight && q.msg.MissionBroadcast? && q.msg.mission == m
        ensures q.msg.objective == objective && q.msg.required == required
      {
        if q in Addressed(p.dst, p.src, outs) {
          var i :| 0 <= i < |outs| && q == Address(p.dst, p.src, outs[i]);
          assert outs[i] in outs;
        }
      }
    }
  }

  lemma {:induction false} RunIsUniform(hash: HashFn, net: Net, choices: seq<nat>, end: Net, m: string, objective: string, required: int)
    requires Uniform(net, m, objective, required) && Runs(hash, net, choices, end)
    ensures Uniform(end, m, objective, required)
    decreases |choices|
  {
    hide DeliverAt, Uniform;
    if choices != [] {
      DeliveryIsUniform(hash, net, choices[0], m, objective, required);
      RunIsUniform(hash, DeliverAt(hash, net, choices[0]), choices[1..], end, m, objective, required);
    }
  }

  /** Wherever a mission gets, it has the objective and the number of agents it was broadcast with. */
  lemma {:induction false} MissionIsTheSame(hash: HashFn, net: Net, root: NodeId, m: string, objective: string, required: int,
          choices: seq<nat>, end: Net, u: NodeId)
    requires root in net.nodes && (forall v | v in net.nodes :: m !in net.nodes[v].missions)
    requires forall p | p in net.flight :: !(p.msg.MissionBroadcast? && p.msg.mission == m)
    requires var (n, outs) := StartMission(net.nodes[root], m, objective, required);
             Runs(hash, Net(net.nodes[root := n], net.flight + Addressed(root, root, outs)), choices, end)
    requires u in end.nodes && m in end.nodes[u].missions
    ensures end.nodes[u].missions[m].objective == objective && end.nodes[u].missions[m].required == required
  {
    hide Runs;
    var (n, outs) := StartMission(net.nodes[root], m, objective, required);
    var start := Net(net.nodes[root := n], net.flight + Addressed(root, root, outs));
    assert Uniform(start, m, objective, required);
    RunIsUniform(hash, start, choices, end, m, objective, required);
  }

  /** A result is recorded under its node, and completes the mission exactly if by then there are as many results as nodes
      that joined; a status that is sent is taken over; neither is passed on, and other missions stay as they are. */
  lemma {:induction false} ResultsAndStatusExactly(hash: HashFn, n: NodeState, sender: NodeId, msg: Message, m: string)
    requires (msg.MissionResult? || msg.MissionStatus?) && m in n.missions
    ensures var (n', outs) := Handle(hash, n, sender, msg);
            && outs == [] && n' == n.(missions := n'.missions) && m in n'.missions
            && var was, now := n.missions[m], n'.missions[m];
               && (msg.mission != m ==> now == was)
               && (msg.mission == m && msg.MissionResult? ==>
                     && now.results == was.results[msg.node := msg.result]
                     && now == was.(results := now.results, status := if |now.results| >= |was.joined| then "completed" else was.status))
               && (msg.mission == m && msg.MissionStatus? ==> now == was.(status := if msg.status.Some? then msg.status.value else was.status))
  {
  }

  /** A mission not heard of before is recorded as recruiting, under the node it came from, with at most two free agents of
      one's own, who are offered to that node. */
  lemma {:induction false} MissionReceivedExactly(hash: HashFn, n: NodeState, sender: NodeId, m: string, objective: string, required: int)
    requires m !in n.missions
    ensures var (n', outs) := Handle(hash, n, sender, MissionBroadcast(m, objective, required));
            var mine := if n.agents > 2 then 2 else n.agents;
            && n' == n.(missions := n.missions[m := Mission(objective, sender, required, "recruiting",
                                                            if mine > 0 then [Joined(n.id, mine)] else [], map[])])
            && (mine > 0 ==> outs != [] && outs[0] == Reply(MissionJoin(m, n.id, mine)))
            && forall o | o in outs :: (mine > 0 && o == Reply(MissionJoin(m, n.id, mine)))
                                       || (o.ToPeer? && o.peer in n.peers && o.peer != sender && o.msg == MissionBroadcast(m, objective, required))
  {
    hide Without, Broadcast;
    OthersOnly(n.peers, sender);
    ToldAll(Without(n.peers, sender), MissionBroadcast(m, objective, required));
  }

  lemma ToldAll(peers: seq<NodeId>, msg: Message)
    ensures forall o | o in Broadcast(peers, msg) :: o.ToPeer? && o.peer in peers && o.msg == msg
  {
  }

  lemma {:induction false} OthersOnly(peers: seq<NodeId>, p: NodeId)
    ensures forall v :: v in Without(peers, p) <==> v in peers && v != p
  {
    if peers != [] {
      OthersOnly(peers[1..], p);
    }
  }
}
