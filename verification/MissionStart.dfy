/** Which missions start: the agents that can ever join at the broadcaster are those of its peers. */
module MissionStart {
  import opened Wrappers
  import opened ArtifactStore
  import opened MeshNode
  import opened MeshNetwork
  import opened Graphs
  import opened MissionFlood

  /** What a node can offer a mission it hears of. */
  function Offer(net: Net, u: NodeId): nat {
    if u !in net.nodes then 0 else if net.nodes[u].agents < 2 then net.nodes[u].agents else 2
  }

  function Offered(net: Net, nodes: seq<NodeId>): int {
    Sum((u: Node) => Offer(net, u), nodes)
  }

  /** The numbers of free agents are the same. */
  ghost predicate SameAgents(net: Net, net': Net) {
    forall u | u in net.nodes :: u in net'.nodes && net'.nodes[u].agents == net.nodes[u].agents
  }

  /** A run during which no node's number of free agents changes. */
  ghost predicate SteadyRun(hash: HashFn, f: Flood, moves: seq<Move>, m: string, end: Flood)
    decreases |moves|
  {
    if moves == [] then end == f
    else
      && Possible(f, moves[0], m) && SameAgents(f.net, After(hash, f, moves[0], m).net)
      && SteadyRun(hash, After(hash, f, moves[0], m), moves[1..], m, end)
  }

  predicate Active(f: Flood, root: NodeId, m: string) {
    root in f.net.nodes && Knows(f.net.nodes[root], m) && f.net.nodes[root].missions[m].status == "active"
  }

  /** Some peer has a free agent, and the peers' free agents, two of each at most, are enough. */
  predicate CanBeStaffed(g: Graph, net: Net, root: NodeId, required: int)
    requires root in g.peers
  {
    (exists v | v in g.peers[root] :: Offer(net, v) > 0) && Offered(net, g.peers[root]) >= required
  }

  // ----- the invariant: what is listed is what was offered -----

  ghost predicate Joins(p: Packet, m: string, u: NodeId, root: NodeId) {
    p.msg.MissionJoin? && p.msg.mission == m && p.src == u && p.dst == root
  }

  ghost predicate Coming(m: string, flight: seq<Packet>, u: NodeId, root: NodeId) {
    exists p :: p in flight && Joins(p, m, u, root)
  }

  ghost predicate Honoured(net: Net, u: NodeId, agents: nat) {
    agents > 0 && agents == Offer(net, u)
  }

  /** A node that heard from the broadcaster first and has something to offer is listed there, or its join is
      under way; joins and entries name what their node has to offer. */
  ghost predicate Tied(m: string, root: NodeId, f: Flood) {
    && root in f.net.nodes && Knows(f.net.nodes[root], m)
    && var joined := f.net.nodes[root].missions[m].joined;
       && (forall i | 0 <= i < |joined| :: Honoured(f.net, joined[i].node, joined[i].agents))
       && (forall p | p in f.net.flight && Joins(p, m, p.src, root) :: Honoured(f.net, p.src, p.msg.agents))
       && (forall u | Child(m, f.net, root, u) && Offer(f.net, u) > 0 :: Listed(joined, u) || Coming(m, f.net.flight, u, root))
  }

  lemma OffersStay(net: Net, net': Net)
    requires SameAgents(net, net') && net'.nodes.Keys == net.nodes.Keys
    ensures forall u :: Offer(net', u) == Offer(net, u)
  {
  }

  lemma TiedAside(m: string, root: NodeId, f: Flood, net: Net)
    requires Tied(m, root, f) && SameForMission(m, f.net, net) && SameAgents(f.net, net)
    ensures Tied(m, root, f.(net := net))
  {
    hide Those, Count, Offer;
    AsideKeepsPackets(m, f.net, net);
    OffersStay(f.net, net);
    forall u | Child(m, net, root, u) && Offer(net, u) > 0
      ensures Listed(net.nodes[root].missions[m].joined, u) || Coming(m, net.flight, u, root)
    {
      assert Child(m, f.net, root, u);
      if Coming(m, f.net.flight, u, root) {
        var p :| p in f.net.flight && Joins(p, m, u, root);
        assert About(p, m) && p in net.flight;
      }
    }
  }

  lemma NotedOffers(m: string, root: NodeId, g: Graph, f: Flood, k: nat, n: NodeState, told: seq<Packet>)
    requires NotesAt(g, m, root, f, k, n, told)
    ensures var net := Noted(f, k, n, told).net;
            (forall u :: Offer(net, u) == Offer(f.net, u)) && (forall u :: Child(m, net, root, u) <==> Child(m, f.net, root, u))
  {
    hide Enlist, AgentsOf, Spreading;
  }

  lemma NotedIsComing(m: string, root: NodeId, f: Flood, k: nat, n: NodeState, told: seq<Packet>, u: NodeId)
    requires k < |f.net.flight| && Coming(m, f.net.flight, u, root)
    requires !Joins(f.net.flight[k], m, u, root)
    ensures Coming(m, Noted(f, k, n, told).net.flight, u, root)
  {
    var p :| p in f.net.flight && Joins(p, m, u, root);
    NotedFlight(f, k, n, told, p);
  }

  /** The broadcaster's list after a step: one more entry for a join, otherwise the same. */
  lemma NotedList(g: Graph, m: string, root: NodeId, required: int, f: Flood, k: nat, n: NodeState, told: seq<Packet>)
    requires NotesAt(g, m, root, f, k, n, told) && Recruiting(g, m, root, required, f)
    ensures var f', p := Noted(f, k, n, told), f.net.flight[k];
            && root in f'.net.nodes && Knows(f'.net.nodes[root], m)
            && f'.net.nodes[root].missions[m].joined
               == f.net.nodes[root].missions[m].joined + (if Joins(p, m, p.src, root) then [Joined(p.src, p.msg.agents)] else [])
  {
    hide Enlist, AgentsOf, Spreading, JoinsOnce, FairlyJoined, Staffed;
    var p := f.net.flight[k];
    assert Notes(g, m, root, f.net.nodes[p.dst], p, n, told);
    if Joins(p, m, p.src, root) {
      SameName(g, m, f, root);
      NotedJoinIsNew(g, m, root, required, f, k, n, told);
    }
  }

  lemma SameName(g: Graph, m: string, f: Flood, root: NodeId)
    requires Spreading(g, m, f) && root in f.net.nodes
    ensures f.net.nodes[root].id == root
  {
  }

  lemma TiedNoted(g: Graph, m: string, root: NodeId, required: int, f: Flood, k: nat, n: NodeState, told: seq<Packet>)
    requires NotesAt(g, m, root, f, k, n, told) && Recruiting(g, m, root, required, f) && Tied(m, root, f)
    ensures Tied(m, root, Noted(f, k, n, told))
  {
    hide Offer, Recruiting, Child, Coming;
    var f', p := Noted(f, k, n, told), f.net.flight[k];
    NotedOffers(m, root, g, f, k, n, told);
    NotedList(g, m, root, required, f, k, n, told);
    var was, now := f.net.nodes[root].missions[m].joined, f'.net.nodes[root].missions[m].joined;
    forall q | q in f'.net.flight && Joins(q, m, q.src, root)
      ensures Honoured(f'.net, q.src, q.msg.agents)
    {
      NotedFlight(f, k, n, told, q);
    }
    assert p in f.net.flight;
    forall u | Child(m, f'.net, root, u) && Offer(f'.net, u) > 0
      ensures Listed(now, u) || Coming(m, f'.net.flight, u, root)
    {
      if Joins(p, m, p.src, root) {
        ListedAfter(was, p.src, p.msg.agents, u);
      } else {
        assert now == was;
      }
      if Coming(m, f.net.flight, u, root) && !Joins(p, m, u, root) {
        NotedIsComing(m, root, f, k, n, told, u);
      }
    }
  }

  lemma LearnedOffers(g: Graph, m: string, root: NodeId, f: Flood, k: nat, n: NodeState, told: seq<Packet>, more: nat)
    requires Learns(g, m, f, k, n, told, more) && f.order[0] == root
    ensures var net := Learned(f, k, n, told, more).net;
            && (forall u :: Offer(net, u) == Offer(f.net, u)) && n.id != root && net.nodes[root] == f.net.nodes[root]
            && (forall u | u != n.id :: Child(m, net, root, u) <==> Child(m, f.net, root, u))
            && (Child(m, net, root, n.id) <==> f.net.flight[k].src == root)
  {
    hide FirstNews, HeardFromEarlier, ToldOrTelling, ComesFromKnower;
    assert root in f.order;
  }

  lemma LearnedJoins(g: Graph, m: string, root: NodeId, f: Flood, k: nat, n: NodeState, told: seq<Packet>, more: nat, q: Packet)
    requires Learns(g, m, f, k, n, told, more) && q in told && Joins(q, m, q.src, root)
    ensures Honoured(Learned(f, k, n, told, more).net, q.src, q.msg.agents)
  {
    hide Spreading;
  }

  lemma LearnedIsComing(g: Graph, m: string, root: NodeId, f: Flood, k: nat, n: NodeState, told: seq<Packet>, more: nat, u: NodeId)
    requires Learns(g, m, f, k, n, told, more)
    ensures Coming(m, f.net.flight, u, root) ==> Coming(m, Learned(f, k, n, told, more).net.flight, u, root)
    ensures u == n.id && f.net.flight[k].src == root && Volunteers(n) > 0 ==> Coming(m, Learned(f, k, n, told, more).net.flight, u, root)
  {
    hide Spreading, Those;
    if Coming(m, f.net.flight, u, root) {
      var p :| p in f.net.flight && Joins(p, m, u, root);
      LearnedFlight(f, k, n, told, more, p);
    }
    if u == n.id && f.net.flight[k].src == root && Volunteers(n) > 0 {
      var p := Packet(n.id, root, MissionJoin(m, n.id, Volunteers(n)));
      LearnedFlight(f, k, n, told, more, p);
      assert Joins(p, m, u, root);
    }
  }

  lemma TiedLearned(g: Graph, m: string, root: NodeId, f: Flood, k: nat, n: NodeState, told: seq<Packet>, more: nat)
    requires Learns(g, m, f, k, n, told, more) && f.order[0] == root && Tied(m, root, f)
    ensures Tied(m, root, Learned(f, k, n, told, more))
  {
    hide FirstNews, Spreading, Offer, Child, Coming, Volunteers, Remove;
    var f' := Learned(f, k, n, told, more);
    LearnedOffers(g, m, root, f, k, n, told, more);
    assert f'.net.nodes[n.id] == n && Offer(f'.net, n.id) == Volunteers(n) by {
      OfferOf(f'.net, n.id);
    }
    forall q | q in f'.net.flight && Joins(q, m, q.src, root)
      ensures Honoured(f'.net, q.src, q.msg.agents)
    {
      LearnedFlight(f, k, n, told, more, q);
      if q in told {
        LearnedJoins(g, m, root, f, k, n, told, more, q);
      }
    }
    forall u | Child(m, f'.net, root, u) && Offer(f'.net, u) > 0
      ensures Listed(f'.net.nodes[root].missions[m].joined, u) || Coming(m, f'.net.flight, u, root)
    {
      LearnedIsComing(g, m, root, f, k, n, told, more, u);
    }
  }

  lemma OfferOf(net: Net, u: NodeId)
    requires u in net.nodes
    ensures Offer(net, u) == Volunteers(net.nodes[u])
  {
  }

  lemma TiedDelivery(hash: HashFn, g: Graph, m: string, root: NodeId, required: int, f: Flood, k: nat)
    requires Undirected(g) && Sound(g, m, root, required, f) && Tied(m, root, f) && k < |f.net.flight|
    ensures SameAgents(f.net, Delivered(hash, f, k, m).net) && Tied(m, root, Delivered(hash, f, k, m))
  {
    hide Counted, HeardFromEarlier, ToldOrTelling, ComesFromKnower, SameForMission, NotesAt, Learns, InStyle, JoinsOnce, Recorded, Tied,
      Handle;
    var p := f.net.flight[k];
    assert p in f.net.flight;
    DeliveryKeepsAgents(hash, f.net, k);
    if !About(p, m) {
      OtherDelivery(hash, m, f, k);
      TiedAside(m, root, f, DeliverAt(hash, f.net, k));
    } else if Carries(p, m) && p.dst !in f.order {
      var n, told, more := NewsArrives(hash, g, m, f, k);
      TiedLearned(g, m, root, f, k, n, told, more);
    } else {
      var n, told := OldNews(hash, g, m, root, f, k);
      TiedNoted(g, m, root, required, f, k, n, told);
    }
  }

  lemma HandleKeepsAgents(hash: HashFn, n: NodeState, sender: NodeId, msg: Message)
    ensures Handle(hash, n, sender, msg).0.agents == n.agents
  {
    hide SendCatalog, Put, Wanted, Has, Without, Enlist, AgentsOf, Volunteers;
  }

  lemma DeliveryKeepsAgents(hash: HashFn, net: Net, k: nat)
    requires k < |net.flight|
    ensures SameAgents(net, DeliverAt(hash, net, k))
  {
    hide Handle;
    var p := net.flight[k];
    if p.dst in net.nodes {
      HandleKeepsAgents(hash, net.nodes[p.dst], p.src, p.msg);
    }
  }

  // ----- steady runs -----

  /** All that holds on a steady run. */
  ghost predicate Steady(g: Graph, m: string, root: NodeId, required: int, f: Flood) {
    Sound(g, m, root, required, f) && Tied(m, root, f)
  }

  lemma SteadyStep(hash: HashFn, g: Graph, m: string, root: NodeId, required: int, f: Flood, move: Move)
    requires Undirected(g) && Steady(g, m, root, required, f) && Possible(f, move, m) && SameAgents(f.net, After(hash, f, move, m).net)
    ensures Steady(g, m, root, required, After(hash, f, move, m))
  {
    hide Sound, Tied, SameForMission, Delivered, SameAgents;
    StepKeeps(hash, g, m, root, required, f, move);
    match move
    case Aside(net) => TiedAside(m, root, f, net);
    case Deliver(k) => TiedDelivery(hash, g, m, root, required, f, k);
  }

  lemma {:induction false} SteadyRunKeeps(hash: HashFn, g: Graph, m: string, root: NodeId, required: int, f: Flood, moves: seq<Move>, end: Flood)
    requires Undirected(g) && Steady(g, m, root, required, f) && SteadyRun(hash, f, moves, m, end)
    ensures Steady(g, m, root, required, end) && SameAgents(f.net, end.net)
    decreases |moves|
  {
    hide Steady, Possible, After;
    if moves != [] {
      SteadyStep(hash, g, m, root, required, f, moves[0]);
      SteadyRunKeeps(hash, g, m, root, required, After(hash, f, moves[0], m), moves[1..], end);
    }
  }

  /** A delivery in front of a run. */
  lemma {:induction false} OneMoreDelivery(hash: HashFn, g: Graph, m: string, root: NodeId, required: int, f: Flood, k: nat, moves: seq<Move>, end: Flood)
    requires Undirected(g) && Steady(g, m, root, required, f) && k < |f.net.flight| && SteadyRun(hash, Delivered(hash, f, k, m), moves, m, end)
    ensures SteadyRun(hash, f, [Deliver(k)] + moves, m, end)
  {
    hide Delivered, Sound, Tied, SameAgents;
    TiedDelivery(hash, g, m, root, required, f, k);
    assert ([Deliver(k)] + moves)[1..] == moves;
  }

  lemma {:induction false} RunsJoin(hash: HashFn, f: Flood, a: seq<Move>, mid: Flood, b: seq<Move>, m: string, end: Flood)
    requires SteadyRun(hash, f, a, m, mid) && SteadyRun(hash, mid, b, m, end)
    ensures SteadyRun(hash, f, a + b, m, end)
    decreases |a|
  {
    hide Possible, After, SameAgents;
    if a == [] {
      assert a + b == b;
    } else {
      RunsJoin(hash, After(hash, f, a[0], m), a[1..], mid, b, m, end);
      assert (a + b)[0] == a[0] && (a + b)[1..] == a[1..] + b;
    }
  }

  /** Every node has two agents free. */
  function Freed(net: Net): Net {
    Net(map u | u in net.nodes :: net.nodes[u].(agents := AGENTS_PER_MISSION), net.flight)
  }

  /** Right after the broadcast nobody has joined, or is about to. */
  lemma BeginIsEmpty(g: Graph, net: Net, root: NodeId, m: string, objective: string, required: int)
    requires Ready(g, net, root, m)
    ensures var f := Begin(net, root, m, objective, required);
            && f.net.nodes.Keys == net.nodes.Keys && Knows(f.net.nodes[root], m) && f.net.nodes[root].missions[m].joined == []
            && SameAgents(net, f.net) && f.order == [root]
            && (forall u :: !Child(m, f.net, root, u)) && forall p | p in f.net.flight :: !Joins(p, m, p.src, root)
  {
    hide Those;
  }

  lemma EmptyIsTied(m: string, root: NodeId, f: Flood)
    requires root in f.net.nodes && Knows(f.net.nodes[root], m) && f.net.nodes[root].missions[m].joined == []
    requires (forall u :: !Child(m, f.net, root, u)) && forall p | p in f.net.flight :: !Joins(p, m, p.src, root)
    ensures Tied(m, root, f) && Tied(m, root, f.(net := Freed(f.net)))
  {
    forall u
      ensures !Child(m, Freed(f.net), root, u)
    {
      assert !Child(m, f.net, root, u);
    }
  }

  lemma BeginIsTied(g: Graph, net: Net, root: NodeId, m: string, objective: string, required: int)
    requires Ready(g, net, root, m)
    ensures Steady(g, m, root, required, Begin(net, root, m, objective, required))
    ensures SameAgents(net, Begin(net, root, m, objective, required).net)
    ensures Begin(net, root, m, objective, required).order == [root]
  {
    hide Sound, Those, Tied, Child, Joins, Begin, SameAgents, Begun;
    BeginIsEmpty(g, net, root, m, objective, required);
    EmptyIsTied(m, root, Begin(net, root, m, objective, required));
    BeginIsBegun(g, net, root, m, objective, required);
    BegunKeeps(g, net, root, StartMission(net.nodes[root], m, objective, required).0, m, objective, required);
  }

  // ----- sums -----

  lemma {:induction false} AgentsOfLast(joined: seq<Joined>)
    requires joined != []
    ensures AgentsOf(joined) == AgentsOf(joined[..|joined| - 1]) + joined[|joined| - 1].agents
  {
    if |joined| > 1 {
      AgentsOfLast(joined[1..]);
      assert joined[1..][..|joined| - 2] == joined[..|joined| - 1][1..];
    }
  }

  function Names(joined: seq<Joined>): seq<NodeId> {
    seq(|joined|, i requires 0 <= i < |joined| => joined[i].node)
  }

  lemma {:induction false} AgentsAreOffers(net: Net, joined: seq<Joined>)
    requires forall i | 0 <= i < |joined| :: Honoured(net, joined[i].node, joined[i].agents)
    ensures AgentsOf(joined) == Offered(net, Names(joined))
  {
    hide Offer;
    if joined != [] {
      var n := |joined| - 1;
      AgentsAreOffers(net, joined[..n]);
      AgentsOfLast(joined);
      assert Names(joined)[..n] == Names(joined[..n]);
      assert Honoured(net, joined[n].node, joined[n].agents);
    }
  }

  /** Everybody listed is a peer with something to offer, and they are all different. */
  lemma ListedAreVolunteers(g: Graph, m: string, root: NodeId, required: int, f: Flood)
    requires Undirected(g) && Steady(g, m, root, required, f)
    ensures root in g.peers && var joined := f.net.nodes[root].missions[m].joined;
            && Distinct(Names(joined)) && Distinct(g.peers[root]) && AgentsOf(joined) == Offered(f.net, Names(joined))
            && forall u | u in Names(joined) :: u in g.peers[root] && Offer(f.net, u) > 0 && Child(m, f.net, root, u) && Listed(joined, u)
  {
    hide Spreading, Counted, JoinsOnce, InStyle, Offer, Coming, Child;
    var joined := f.net.nodes[root].missions[m].joined;
    RootIsThere(g, m, root, required, f);
    AgentsAreOffers(f.net, joined);
    forall u | u in Names(joined)
      ensures u in g.peers[root] && Offer(f.net, u) > 0 && Child(m, f.net, root, u) && Listed(joined, u)
    {
      var i :| 0 <= i < |joined| && joined[i].node == u;
      ListedIsChild(g, m, root, required, f, i);
      assert Honoured(f.net, joined[i].node, joined[i].agents);
    }
  }

  lemma RootIsThere(g: Graph, m: string, root: NodeId, required: int, f: Flood)
    requires Undirected(g) && Sound(g, m, root, required, f)
    ensures root in f.net.nodes && Knows(f.net.nodes[root], m) && root in g.peers
    ensures f.net.nodes[root].missions[m].required == required
  {
    hide Counted;
  }

  lemma {:induction false} NothingOfNothing(net: Net, nodes: seq<NodeId>)
    requires forall u | u in nodes :: Offer(net, u) == 0
    ensures Offered(net, nodes) == 0
  {
    SumSigns((u: Node) => Offer(net, u), nodes);
  }

  // ----- what the network can offer bounds every run -----

  /** Whatever the order of deliveries: what is listed is never more than the peers have to offer. */
  lemma ActiveWasOffered(g: Graph, m: string, root: NodeId, required: int, f: Flood)
    requires Undirected(g) && Steady(g, m, root, required, f) && Active(f, root, m)
    ensures root in g.peers && CanBeStaffed(g, f.net, root, required)
  {
    hide Spreading, Counted, JoinsOnce, InStyle, Offer, Tied, Child, Names;
    ListedAreVolunteers(g, m, root, required, f);
    RootIsThere(g, m, root, required, f);
    var joined := f.net.nodes[root].missions[m].joined;
    SumPart((u: Node) => Offer(f.net, u), Names(joined), g.peers[root]);
    FirstName(joined);
  }

  lemma FirstName(joined: seq<Joined>)
    ensures joined != [] ==> Names(joined) != [] && Names(joined)[0] in Names(joined)
  {
  }

  // ----- and a run that gets nothing in its way reaches it -----

  ghost predicate QuietAbout(f: Flood, m: string) {
    forall p | p in f.net.flight :: !About(p, m)
  }

  ghost predicate AllHeardFirst(g: Graph, m: string, root: NodeId, f: Flood)
    requires root in g.peers
  {
    forall v | v in g.peers[root] :: Child(m, f.net, root, v)
  }

  /** What the peers that heard from the broadcaster first have to offer. */
  function OfferedByChildren(m: string, net: Net, root: NodeId, nodes: seq<NodeId>): int {
    Sum((u: Node) => if Child(m, net, root, u) then Offer(net, u) else 0, nodes)
  }

  /** Once nothing about the mission is under way, what is listed is exactly that. */
  lemma QuietListsAll(g: Graph, m: string, root: NodeId, required: int, f: Flood)
    requires Undirected(g) && Steady(g, m, root, required, f) && QuietAbout(f, m)
    ensures root in g.peers && var joined := f.net.nodes[root].missions[m].joined;
            && AgentsOf(joined) == OfferedByChildren(m, f.net, root, g.peers[root])
            && (joined != [] <==> exists v :: v in g.peers[root] && Child(m, f.net, root, v) && Offer(f.net, v) > 0)
  {
    hide Sound, Offer, Child, Names;
    ListedAreVolunteers(g, m, root, required, f);
    var joined := f.net.nodes[root].missions[m].joined;
    var names := Names(joined);
    var all := (u: Node) => Offer(f.net, u);
    var some := (u: Node) => if Child(m, f.net, root, u) then Offer(f.net, u) else 0;
    forall u | Child(m, f.net, root, u) && Offer(f.net, u) > 0
      ensures u in names
    {
      QuietMeansListed(g, m, root, required, f, u);
    }
    SumAgrees(all, some, names);
    SumPart(some, names, g.peers[root]);
    FirstName(joined);
    NoNames(joined);
  }

  lemma NoNames(joined: seq<Joined>)
    ensures joined == [] ==> Names(joined) == []
  {
  }

  lemma NothingComes(f: Flood, m: string, u: NodeId, root: NodeId)
    requires QuietAbout(f, m)
    ensures !Coming(m, f.net.flight, u, root)
  {
  }

  lemma QuietMeansListed(g: Graph, m: string, root: NodeId, required: int, f: Flood, u: NodeId)
    requires Undirected(g) && Steady(g, m, root, required, f) && QuietAbout(f, m) && Child(m, f.net, root, u) && Offer(f.net, u) > 0
    ensures u in Names(f.net.nodes[root].missions[m].joined)
  {
    hide Sound, Offer, Child;
    var joined := f.net.nodes[root].missions[m].joined;
    NothingComes(f, m, u, root);
    var i :| 0 <= i < |joined| && joined[i].node == u;
    assert Names(joined)[i] == u;
  }

  /** With nothing under way the mission is active exactly if the peers that heard from the broadcaster first have an
      agent free, and enough of them. */
  lemma QuietIsActiveExactly(g: Graph, m: string, root: NodeId, required: int, f: Flood)
    requires Undirected(g) && Steady(g, m, root, required, f) && QuietAbout(f, m)
    ensures root in g.peers
    ensures Active(f, root, m)
            <==> && (exists v :: v in g.peers[root] && Child(m, f.net, root, v) && Offer(f.net, v) > 0)
                 && OfferedByChildren(m, f.net, root, g.peers[root]) >= required
  {
    hide Spreading, Counted, JoinsOnce, InStyle, Offer, Tied, Child, OfferedByChildren, QuietAbout;
    QuietListsAll(g, m, root, required, f);
    RootIsThere(g, m, root, required, f);
  }

  // ----- building a run -----

  lemma ChildStays(hash: HashFn, g: Graph, m: string, root: NodeId, required: int, f: Flood, k: nat)
    requires Undirected(g) && Sound(g, m, root, required, f) && k < |f.net.flight|
    ensures forall u | Child(m, f.net, root, u) :: Child(m, Delivered(hash, f, k, m).net, root, u)
  {
    hide Counted, HeardFromEarlier, ToldOrTelling, ComesFromKnower, InStyle, JoinsOnce, Recorded, Handle, FirstNews, Those;
    var p := f.net.flight[k];
    assert p in f.net.flight;
    if !About(p, m) {
      OtherDelivery(hash, m, f, k);
    } else if Carries(p, m) && p.dst !in f.order {
      var n, told, more := NewsArrives(hash, g, m, f, k);
    } else {
      var n, told := OldNews(hash, g, m, root, f, k);
    }
  }

  /** No more than this is ever delivered about a mission. */
  function Bound(g: Graph, root: NodeId): int {
    Sum((u: Node) => Degree(g, u), g.ids) + |g.ids| + Degree(g, root) * Degree(g, root)
  }

  lemma {:induction false} DeliveredIsBounded(g: Graph, m: string, root: NodeId, required: int, f: Flood)
    requires Undirected(g) && Sound(g, m, root, required, f)
    ensures f.delivered <= Bound(g, root) && |f.order| <= |g.ids|
  {
    hide Those, HeardFromEarlier, ToldOrTelling, ComesFromKnower, InStyle, JoinsOnce, Degree, Recorded;
    StatusesAreFew(g, m, root, required, f);
    JoinedAreFew(g, m, root, required, f);
    var degree := (u: Node) => Degree(g, u);
    SumMinusOnes(g, f.order);
    SumPart(degree, f.order, g.ids);
    SomeAreFew(f.order, g.ids);
    var d, j := Degree(g, root), |f.net.nodes[root].missions[m].joined|;
    Times(d, j, d);
  }

  lemma Times(d: nat, j: nat, k: nat)
    requires j <= k
    ensures d * j <= d * k
  {
  }

  /** From any state, deliveries alone bring everything about the mission to its end. */
  lemma {:induction false} RunsOut(hash: HashFn, g: Graph, m: string, root: NodeId, required: int, f: Flood) returns (moves: seq<Move>, end: Flood)
    requires Undirected(g) && Steady(g, m, root, required, f)
    ensures SteadyRun(hash, f, moves, m, end) && Steady(g, m, root, required, end) && QuietAbout(end, m)
    ensures forall u | Child(m, f.net, root, u) :: Child(m, end.net, root, u)
    decreases Bound(g, root) - f.delivered
  {
    hide Sound, Tied, Child, SameAgents, Bound;
    DeliveredIsBounded(g, m, root, required, f);
    if p :| p in f.net.flight && About(p, m) {
      var k :| 0 <= k < |f.net.flight| && f.net.flight[k] == p;
      var f' := Delivered(hash, f, k, m);
      StepKeeps(hash, g, m, root, required, f, Deliver(k));
      TiedDelivery(hash, g, m, root, required, f, k);
      ChildStays(hash, g, m, root, required, f, k);
      DeliveredIsBounded(g, m, root, required, f');
      moves, end := RunsOut(hash, g, m, root, required, f');
      OneMoreDelivery(hash, g, m, root, required, f, k, moves, end);
      moves := [Deliver(k)] + moves;
    } else {
      moves, end := [], f;
    }
  }

  /** A peer that has not heard yet can hear from the broadcaster next. */
  lemma HearsNext(hash: HashFn, g: Graph, m: string, root: NodeId, required: int, f: Flood, v: NodeId) returns (k: nat)
    requires Undirected(g) && Sound(g, m, root, required, f) && root in g.peers && v in g.peers[root] && v !in f.order
    ensures k < |f.net.flight|
    ensures var f' := Delivered(hash, f, k, m); f'.order == f.order + [v] && Child(m, f'.net, root, v)
  {
    hide Counted, HeardFromEarlier, ComesFromKnower, InStyle, JoinsOnce, Recorded, FirstNews, Those, Delivered;
    assert root in f.order && ToldOrTelling(m, f, root, v);
    var p :| p in f.net.flight && p.src == root && p.dst == v && Carries(p, m);
    k :| 0 <= k < |f.net.flight| && f.net.flight[k] == p;
    var n, told, more := NewsArrives(hash, g, m, f, k);
  }

  /** As long as no peer heard from anybody else, all of them can hear from the broadcaster first. */
  lemma {:induction false} AllHearFirst(hash: HashFn, g: Graph, m: string, root: NodeId, required: int, f: Flood)
    returns (moves: seq<Move>, end: Flood)
    requires Undirected(g) && Steady(g, m, root, required, f) && root in g.peers
    requires forall v | v in g.peers[root] && v in f.order :: Child(m, f.net, root, v)
    ensures SteadyRun(hash, f, moves, m, end) && Steady(g, m, root, required, end) && AllHeardFirst(g, m, root, end)
    decreases |g.ids| - |f.order|
  {
    hide Sound, Tied, Child, SameAgents, Delivered;
    DeliveredIsBounded(g, m, root, required, f);
    if v :| v in g.peers[root] && v !in f.order {
      var k := HearsNext(hash, g, m, root, required, f, v);
      var f' := Delivered(hash, f, k, m);
      StepKeeps(hash, g, m, root, required, f, Deliver(k));
      TiedDelivery(hash, g, m, root, required, f, k);
      ChildStays(hash, g, m, root, required, f, k);
      DeliveredIsBounded(g, m, root, required, f');
      moves, end := AllHearFirst(hash, g, m, root, required, f');
      OneMoreDelivery(hash, g, m, root, required, f, k, moves, end);
      moves := [Deliver(k)] + moves;
    } else {
      moves, end := [], f;
    }
  }

  // ----- the theorems -----

  lemma SameOffers(g: Graph, net: Net, net': Net, root: NodeId, required: int)
    requires root in g.peers && SameAgents(net, net') && net'.nodes.Keys == net.nodes.Keys
    ensures CanBeStaffed(g, net', root, required) <==> CanBeStaffed(g, net, root, required)
  {
    hide Offer;
    OffersStay(net, net');
    SumAgrees((u: Node) => Offer(net', u), (u: Node) => Offer(net, u), g.peers[root]);
  }

  lemma SameNodes(g: Graph, m: string, root: NodeId, required: int, net: Net, f: Flood)
    requires Sound(g, m, root, required, f) && OnGraph(g, net)
    ensures f.net.nodes.Keys == net.nodes.Keys
  {
    hide Counted, HeardFromEarlier, ToldOrTelling, ComesFromKnower, Recruiting;
  }

  /** When all peers heard from the broadcaster first, what its children offer is what its peers do. */
  lemma ChildrenAreAll(g: Graph, m: string, root: NodeId, f: Flood, required: int)
    requires root in g.peers && AllHeardFirst(g, m, root, f)
    ensures (&& (exists v :: v in g.peers[root] && Child(m, f.net, root, v) && Offer(f.net, v) > 0)
             && OfferedByChildren(m, f.net, root, g.peers[root]) >= required) <==> CanBeStaffed(g, f.net, root, required)
  {
    hide Offer, Child;
    SumAgrees((u: Node) => if Child(m, f.net, root, u) then Offer(f.net, u) else 0, (u: Node) => Offer(f.net, u), g.peers[root]);
  }

  /** Every finished run, other traffic included, in which each peer heard from the broadcaster first and agents stayed
      as they were has the mission active exactly if the peers' free agents at the start are enough. */
  lemma {:induction false} HeardFirstStartsExactly(hash: HashFn, g: Graph, net: Net, root: NodeId, m: string, objective: string,
          required: int, moves: seq<Move>, end: Flood)
    requires Ready(g, net, root, m) && SteadyRun(hash, Begin(net, root, m, objective, required), moves, m, end)
    requires QuietAbout(end, m) && root in g.peers && AllHeardFirst(g, m, root, end)
    ensures Active(end, root, m) <==> CanBeStaffed(g, net, root, required)
  {
    hide Sound, Tied, SteadyRun, QuietAbout, AllHeardFirst, CanBeStaffed, OnGraph, OfferedByChildren, Active;
    BeginIsTied(g, net, root, m, objective, required);
    var f := Begin(net, root, m, objective, required);
    SteadyRunKeeps(hash, g, m, root, required, f, moves, end);
    QuietIsActiveExactly(g, m, root, required, end);
    ChildrenAreAll(g, m, root, end, required);
    SameNodes(g, m, root, required, net, end);
    SameOffers(g, net, end.net, root, required);
  }

  /** A mission can start exactly if some peer of the broadcaster has a free agent and its peers have enough of them,
      counting two of each at most: then some run has it active, and otherwise no run ever has. */
  lemma {:induction false} CanStartExactly(hash: HashFn, g: Graph, net: Net, root: NodeId, m: string, objective: string, required: int)
    requires Ready(g, net, root, m)
    ensures root in g.peers
    ensures (exists moves, end :: SteadyRun(hash, Begin(net, root, m, objective, required), moves, m, end) && Active(end, root, m))
            <==> CanBeStaffed(g, net, root, required)
  {
    hide Sound, Tied, SteadyRun, QuietAbout, AllHeardFirst, CanBeStaffed, Active, Begin, Child;
    var f := Begin(net, root, m, objective, required);
    BeginIsTied(g, net, root, m, objective, required);
    if moves, end :| SteadyRun(hash, f, moves, m, end) && Active(end, root, m) {
      SteadyRunKeeps(hash, g, m, root, required, f, moves, end);
      ActiveWasOffered(g, m, root, required, end);
      SameNodes(g, m, root, required, net, end);
      SameOffers(g, net, end.net, root, required);
    }
    if CanBeStaffed(g, net, root, required) {
      var first, mid := AllHearFirst(hash, g, m, root, required, f);
      var rest, end := RunsOut(hash, g, m, root, required, mid);
      RunsJoin(hash, f, first, mid, rest, m, end);
      StillHeardFirst(g, m, root, mid, end);
      HeardFirstStartsExactly(hash, g, net, root, m, objective, required, first + rest, end);
    }
  }

  lemma StillHeardFirst(g: Graph, m: string, root: NodeId, f: Flood, end: Flood)
    requires root in g.peers && AllHeardFirst(g, m, root, f)
    requires forall u | Child(m, f.net, root, u) :: Child(m, end.net, root, u)
    ensures AllHeardFirst(g, m, root, end)
  {
  }

  /** Two nodes that are each other's only peer. */
  const PAIR := Graph(["a", "b"], map["a" := ["b"], "b" := ["a"]])

  /** A mission that one of them broadcasts for two agents does not start while the other has none free. */
  lemma {:induction false} IdlePeerNeverStarts(hash: HashFn, net: Net, m: string, objective: string, moves: seq<Move>, end: Flood)
    requires Ready(PAIR, net, "a", m) && "b" in net.nodes && net.nodes["b"].agents == 0
    requires SteadyRun(hash, Begin(net, "a", m, objective, 2), moves, m, end)
    ensures !Active(end, "a", m)
  {
    hide Ready, SteadyRun, Begin, Active, Offered;
    CanStartExactly(hash, PAIR, net, "a", m, objective, 2);
    assert !CanBeStaffed(PAIR, net, "a", 2) by {
      assert Offer(net, "b") == 0;
    }
  }

  // ----- when agents come and go -----

  lemma FreedIsSame(g: Graph, net: Net, m: string)
    requires NoHandshakes(net.flight)
    ensures SameForMission(m, net, Freed(net))
  {
    hide Those;
  }

  lemma FreedIsTied(g: Graph, net: Net, root: NodeId, m: string, objective: string, required: int)
    requires Ready(g, net, root, m)
    ensures var f := Begin(net, root, m, objective, required); Steady(g, m, root, required, f.(net := Freed(f.net)))
    ensures forall v :: Offer(Freed(Begin(net, root, m, objective, required).net), v) == if v in net.nodes then AGENTS_PER_MISSION else 0
  {
    hide Spreading, Counted, Recruiting, Those, SameForMission, Begin, Tied, Child, Joins;
    var f := Begin(net, root, m, objective, required);
    BeginIsTied(g, net, root, m, objective, required);
    BeginIsEmpty(g, net, root, m, objective, required);
    EmptyIsTied(m, root, f);
    NoHandshakesAtFirst(g, m, f);
    FreedIsSame(g, f.net, m);
    AsideKeeps(g, m, root, required, f, Freed(f.net));
  }

  lemma NoHandshakesAtFirst(g: Graph, m: string, f: Flood)
    requires Spreading(g, m, f)
    ensures NoHandshakes(f.net.flight)
  {
  }

  lemma {:induction false} SteadyRunIsRun(hash: HashFn, f: Flood, moves: seq<Move>, m: string, end: Flood)
    requires SteadyRun(hash, f, moves, m, end)
    ensures MissionFlood.Runs(hash, f, moves, m, end)
    decreases |moves|
  {
    hide Possible, After;
    if moves != [] {
      SteadyRunIsRun(hash, After(hash, f, moves[0], m), moves[1..], m, end);
    }
  }

  lemma {:induction false} SumOfTwos(f: Node -> int, nodes: seq<NodeId>)
    requires forall u | u in nodes :: f(u) == AGENTS_PER_MISSION
    ensures Sum(f, nodes) == AGENTS_PER_MISSION * |nodes|
  {
    if nodes != [] {
      SumOfTwos(f, nodes[..|nodes| - 1]);
    }
  }

  lemma FreedCanBeStaffed(g: Graph, net: Net, root: NodeId, required: int)
    requires root in g.peers && Degree(g, root) > 0 && required <= AGENTS_PER_MISSION * Degree(g, root)
    requires forall v | v in g.peers[root] :: Offer(net, v) == AGENTS_PER_MISSION
    ensures CanBeStaffed(g, net, root, required)
  {
    hide Offer;
    SumOfTwos((u: Node) => Offer(net, u), g.peers[root]);
    assert g.peers[root][0] in g.peers[root];
  }

  lemma PeersAreThere(g: Graph, net: Net, root: NodeId)
    requires Undirected(g) && OnGraph(g, net) && root in net.nodes
    ensures root in g.peers && forall v | v in g.peers[root] :: v in net.nodes
  {
  }

  lemma {:induction false} ActiveNeedsPeers(hash: HashFn, g: Graph, net: Net, root: NodeId, m: string, objective: string, required: int,
          moves: seq<Move>, end: Flood)
    requires Ready(g, net, root, m) && MissionFlood.Runs(hash, Begin(net, root, m, objective, required), moves, m, end) && Active(end, root, m)
    ensures Degree(g, root) > 0 && required <= AGENTS_PER_MISSION * Degree(g, root)
  {
    hide Sound, MissionFlood.Runs, Begin;
    RunIsSound(hash, g, net, root, m, objective, required, moves, end);
    JoinedAreFew(g, m, root, required, end);
    StartsExactlyWhenStaffed(hash, g, net, root, m, objective, required, moves, end);
  }

  /** Where agents may become free or busy at any time, a mission can start exactly if the broadcaster has a peer and
      no more than two agents are needed for each. */
  lemma {:induction false} CanEverStartExactly(hash: HashFn, g: Graph, net: Net, root: NodeId, m: string, objective: string, required: int)
    requires Ready(g, net, root, m)
    ensures (exists moves, end :: MissionFlood.Runs(hash, Begin(net, root, m, objective, required), moves, m, end) && Active(end, root, m))
            <==> Degree(g, root) > 0 && required <= AGENTS_PER_MISSION * Degree(g, root)
  {
    hide Sound, Tied, MissionFlood.Runs, SteadyRun, QuietAbout, AllHeardFirst, CanBeStaffed, Active, Begin, Child, SameForMission, OfferedByChildren, Offer;
    var f := Begin(net, root, m, objective, required);
    if moves, end :| MissionFlood.Runs(hash, f, moves, m, end) && Active(end, root, m) {
      ActiveNeedsPeers(hash, g, net, root, m, objective, required, moves, end);
    }
    if Degree(g, root) > 0 && required <= AGENTS_PER_MISSION * Degree(g, root) {
      var moves, end := FreedRun(hash, g, net, root, m, objective, required);
    }
  }

  lemma FreedRun(hash: HashFn, g: Graph, net: Net, root: NodeId, m: string, objective: string, required: int)
    returns (moves: seq<Move>, end: Flood)
    requires Ready(g, net, root, m) && Degree(g, root) > 0 && required <= AGENTS_PER_MISSION * Degree(g, root)
    ensures MissionFlood.Runs(hash, Begin(net, root, m, objective, required), moves, m, end) && Active(end, root, m)
  {
    hide Sound, Tied, SteadyRun, QuietAbout, AllHeardFirst, CanBeStaffed, Active, Child, SameForMission, OfferedByChildren, Offer, OnGraph,
      Those;
    var f := Begin(net, root, m, objective, required);
    var freed := f.(net := Freed(f.net));
    PeersAreThere(g, net, root);
    BeginIsTied(g, net, root, m, objective, required);
    FreedIsTied(g, net, root, m, objective, required);
    FirstIsAside(g, f, m, required, root);
    var first, mid := AllHearFirst(hash, g, m, root, required, freed);
    var rest, last := RunsOut(hash, g, m, root, required, mid);
    RunsJoin(hash, freed, first, mid, rest, m, last);
    StillHeardFirst(g, m, root, mid, last);
    SteadyRunKeeps(hash, g, m, root, required, freed, first + rest, last);
    QuietIsActiveExactly(g, m, root, required, last);
    ChildrenAreAll(g, m, root, last, required);
    SameNodes(g, m, root, required, net, last);
    SameNodes(g, m, root, required, net, freed);
    OffersStay(freed.net, last.net);
    FreedCanBeStaffed(g, last.net, root, required);
    SteadyRunIsRun(hash, freed, first + rest, m, last);
    moves, end := [Aside(freed.net)] + (first + rest), last;
    assert moves[1..] == first + rest;
  }

  lemma FirstIsAside(g: Graph, f: Flood, m: string, required: int, root: NodeId)
    requires Sound(g, m, root, required, f)
    ensures Possible(f, Aside(Freed(f.net)), m)
  {
    hide Counted, Recruiting, SameForMission;
    NoHandshakesAtFirst(g, m, f);
    FreedIsSame(g, f.net, m);
  }
}
