/** A mission floods a fixed, connected network with reliable links, among any other traffic
    that leaves the peer tables alone. */
module MissionFlood {
  import opened Wrappers
  import opened ArtifactStore
  import opened MeshNode
  import opened MeshNetwork
  import opened Graphs

  predicate About(p: Packet, m: string) {
    match p.msg
    case MissionBroadcast(id, _, _) => id == m
    case MissionJoin(id, _, _) => id == m
    case MissionResult(id, _, _) => id == m
    case MissionStatus(id, _) => id == m
    case _ => false
  }

  predicate Carries(p: Packet, m: string) {
    p.msg.MissionBroadcast? && p.msg.mission == m
  }

  datatype Kind = Any | Call | Status | JoinOf(node: NodeId, to: NodeId)

  predicate Is(p: Packet, m: string, kind: Kind) {
    && About(p, m)
    && match kind
       case Any => true
       case Call => p.msg.MissionBroadcast?
       case Status => p.msg.MissionStatus?
       case JoinOf(u, v) => p.msg.MissionJoin? && p.src == u && p.dst == v
  }

  /** The packets of one kind about the mission, in order. */
  function Those(packets: seq<Packet>, m: string, kind: Kind): seq<Packet> {
    if packets == [] then []
    else if Is(packets[0], m, kind) then [packets[0]] + Those(packets[1..], m, kind)
    else Those(packets[1..], m, kind)
  }

  function Count(packets: seq<Packet>, m: string, kind: Kind): nat {
    |Those(packets, m, kind)|
  }

  predicate Knows(n: NodeState, m: string) {
    m in n.missions
  }

  /** The network with its history: nodes in the order they learned of the mission, broadcasts and status
      messages about it sent so far, and messages about it delivered so far. */
  datatype Flood = Flood(net: Net, order: seq<NodeId>, sent: nat, statuses: nat, delivered: nat)

  /** The broadcaster starts the mission, whatever else is under way. */
  function Begin(net: Net, root: NodeId, m: string, objective: string, required: int): Flood
    requires root in net.nodes
  {
    var (n, outs) := StartMission(net.nodes[root], m, objective, required);
    var packets := Addressed(root, root, outs);
    Flood(Net(net.nodes[root := n], net.flight + packets), [root], Count(packets, m, Call), 0, 0)
  }

  /** The messages that delivering the k-th one gives rise to. */
  function NewPackets(hash: HashFn, net: Net, k: nat): seq<Packet>
    requires k < |net.flight|
  {
    var p := net.flight[k];
    if p.dst !in net.nodes then []
    else Addressed(p.dst, p.src, Handle(hash, net.nodes[p.dst], p.src, p.msg).1)
  }

  /** Either a message in flight is delivered, or the network changes in something else. */
  datatype Move = Deliver(k: nat) | Aside(net: Net)

  ghost predicate NoHandshakes(flight: seq<Packet>) {
    forall p | p in flight :: !p.msg.Handshake? && !p.msg.HandshakeAck?
  }

  /** Nothing that concerns the mission differs: nodes and their peers, what they have on record about it, and
      the messages about it. Stores, other missions, other messages and the numbers of free agents may. */
  ghost predicate SameForMission(m: string, net: Net, net': Net) {
    && net'.nodes.Keys == net.nodes.Keys
    && (forall u | u in net.nodes :: SameRecord(m, net.nodes[u], net'.nodes[u]))
    && Those(net'.flight, m, Any) == Those(net.flight, m, Any)
    && NoHandshakes(net'.flight)
  }

  ghost predicate SameRecord(m: string, n: NodeState, n': NodeState) {
    n'.id == n.id && n'.peers == n.peers && (Knows(n', m) <==> Knows(n, m)) && (Knows(n, m) ==> n'.missions[m] == n.missions[m])
  }

  ghost predicate Possible(f: Flood, move: Move, m: string) {
    match move
    case Deliver(k) => k < |f.net.flight|
    case Aside(net) => SameForMission(m, f.net, net)
  }

  function Delivered(hash: HashFn, f: Flood, k: nat, m: string): Flood
    requires k < |f.net.flight|
  {
    var p := f.net.flight[k];
    var net := DeliverAt(hash, f.net, k);
    var sent := NewPackets(hash, f.net, k);
    var learned := p.dst in f.net.nodes && !Knows(f.net.nodes[p.dst], m) && Knows(net.nodes[p.dst], m);
    Flood(net, if learned then f.order + [p.dst] else f.order, f.sent + Count(sent, m, Call),
          f.statuses + Count(sent, m, Status), f.delivered + if About(p, m) then 1 else 0)
  }

  function After(hash: HashFn, f: Flood, move: Move, m: string): Flood
    requires Possible(f, move, m)
  {
    match move
    case Deliver(k) => Delivered(hash, f, k, m)
    case Aside(net) => f.(net := net)
  }

  ghost predicate Runs(hash: HashFn, f: Flood, moves: seq<Move>, m: string, end: Flood)
    decreases |moves|
  {
    if moves == [] then end == f
    else Possible(f, moves[0], m) && Runs(hash, After(hash, f, moves[0], m), moves[1..], m, end)
  }

  // ----- the invariants -----

  ghost predicate OnGraph(g: Graph, net: Net) {
    && (forall u :: u in net.nodes <==> u in g.ids)
    && (forall u | u in net.nodes :: net.nodes[u].id == u && u in g.peers && net.nodes[u].peers == g.peers[u])
  }

  ghost predicate OrderIsKnown(m: string, f: Flood) {
    Distinct(f.order) && forall u :: u in f.order <==> u in f.net.nodes && Knows(f.net.nodes[u], m)
  }

  /** `u` heard of the mission from the node its record names, a peer that knew it earlier. */
  ghost predicate HeardFromEarlier(g: Graph, m: string, f: Flood, i: nat)
    requires i < |f.order|
  {
    && f.order[i] in f.net.nodes && Knows(f.net.nodes[f.order[i]], m)
    && var parent := f.net.nodes[f.order[i]].missions[m].originator;
       if i == 0 then parent == f.order[0] else parent in f.order[..i] && parent in g.peers && f.order[i] in g.peers[parent]
  }

  /** Messages about the mission go from nodes that know it to their peers. */
  ghost predicate ComesFromKnower(g: Graph, f: Flood, p: Packet) {
    p.src in f.order && p.src in g.peers && p.dst in g.peers[p.src]
  }

  ghost predicate ToldOrTelling(m: string, f: Flood, u: NodeId, v: NodeId) {
    v in f.order || exists p :: p in f.net.flight && p.src == u && p.dst == v && Carries(p, m)
  }

  ghost predicate Spreading(g: Graph, m: string, f: Flood) {
    && OnGraph(g, f.net) && NoHandshakes(f.net.flight) && OrderIsKnown(m, f) && f.order != []
    && (forall i | 0 <= i < |f.order| :: HeardFromEarlier(g, m, f, i))
    && (forall p | p in f.net.flight && About(p, m) :: ComesFromKnower(g, f, p))
    && (forall u, v | u in f.order && u in g.peers && v in g.peers[u] :: ToldOrTelling(m, f, u, v))
  }

  ghost predicate Counted(g: Graph, m: string, f: Flood) {
    && f.sent == Sum((u: Node) => Degree(g, u) - 1, f.order) + 1
    && f.delivered + Count(f.net.flight, m, Any) <= f.sent + |f.order| - 1 + f.statuses
  }

  predicate Listed(joined: seq<Joined>, u: NodeId) {
    exists i :: 0 <= i < |joined| && joined[i].node == u
  }

  /** `u` heard of the mission from the broadcaster first. */
  predicate Child(m: string, net: Net, root: NodeId, u: NodeId) {
    u != root && u in net.nodes && Knows(net.nodes[u], m) && net.nodes[u].missions[m].originator == root
  }

  /** Different nodes, none with more agents than a node volunteers. */
  ghost predicate FairlyJoined(joined: seq<Joined>) {
    && (forall i | 0 <= i < |joined| :: joined[i].agents <= AGENTS_PER_MISSION)
    && (forall i, j | 0 <= i < j < |joined| :: joined[i].node != joined[j].node)
  }

  predicate Staffed(mission: Mission) {
    mission.joined != [] && AgentsOf(mission.joined) >= mission.required
  }

  /** The broadcaster's record, with the number of status messages sent about it. */
  ghost predicate Recorded(mission: Mission, root: NodeId, required: int, peers: nat, statuses: nat) {
    && mission.originator == root && mission.required == required
    && FairlyJoined(mission.joined)
    && mission.status == (if Staffed(mission) then "active" else "recruiting")
    && statuses <= (if Staffed(mission) then peers * |mission.joined| else 0)
  }

  /** Joins speak for their sender, the broadcaster gets no status, and nobody has a result. */
  ghost predicate InStyle(m: string, root: NodeId, p: Packet) {
    match p.msg
    case MissionJoin(id, node, agents) => id == m ==> node == p.src && agents <= AGENTS_PER_MISSION
    case MissionStatus(id, _) => id == m ==> p.dst != root
    case MissionResult(id, _, _) => id != m
    case _ => true
  }

  /** A node that heard from the broadcaster first joins there at most once, and no other node does. */
  ghost predicate JoinsOnce(m: string, root: NodeId, net: Net, joined: seq<Joined>, u: NodeId) {
    Count(net.flight, m, JoinOf(u, root)) + (if Listed(joined, u) then 1 else 0) <= if Child(m, net, root, u) then 1 else 0
  }

  ghost predicate Recruiting(g: Graph, m: string, root: NodeId, required: int, f: Flood) {
    && f.order != [] && f.order[0] == root && root in f.net.nodes && Knows(f.net.nodes[root], m)
    && (forall p | p in f.net.flight :: InStyle(m, root, p))
    && var mission := f.net.nodes[root].missions[m];
       && Recorded(mission, root, required, Degree(g, root), f.statuses)
       && forall u :: JoinsOnce(m, root, f.net, mission.joined, u)
  }

  // ----- counting lemmas -----

  lemma {:induction false} WithoutOne(peers: seq<NodeId>, p: NodeId)
    requires Distinct(peers)
    ensures |Without(peers, p)| == |peers| - (if p in peers then 1 else 0)
    ensures forall v :: v in Without(peers, p) <==> v in peers && v != p
  {
    if peers != [] {
      WithoutOne(peers[1..], p);
    }
  }

  lemma {:induction false} ThoseOfConcat(p: seq<Packet>, q: seq<Packet>, m: string, kind: Kind)
    ensures Those(p + q, m, kind) == Those(p, m, kind) + Those(q, m, kind)
  {
    hide Is;
    if p == [] {
      assert p + q == q;
    } else {
      ThoseOfConcat(p[1..], q, m, kind);
      assert (p + q)[0] == p[0] && (p + q)[1..] == p[1..] + q;
    }
  }

  lemma {:induction false} ThoseOfOne(p: Packet, m: string, kind: Kind)
    ensures Those([p], m, kind) == if Is(p, m, kind) then [p] else []
  {
    assert [p][1..] == [];
  }

  lemma {:induction false} ThoseMembers(packets: seq<Packet>, m: string, kind: Kind)
    ensures forall p :: p in Those(packets, m, kind) <==> p in packets && Is(p, m, kind)
  {
    if packets != [] {
      ThoseMembers(packets[1..], m, kind);
      assert packets == [packets[0]] + packets[1..];
    }
  }

  lemma {:induction false} ThoseAll(packets: seq<Packet>, m: string, kind: Kind)
    requires forall p | p in packets :: Is(p, m, kind)
    ensures Those(packets, m, kind) == packets
  {
    if packets != [] {
      ThoseAll(packets[1..], m, kind);
    }
  }

  lemma {:induction false} ThoseNone(packets: seq<Packet>, m: string, kind: Kind)
    requires forall p | p in packets :: !Is(p, m, kind)
    ensures Those(packets, m, kind) == []
  {
    if packets != [] {
      ThoseNone(packets[1..], m, kind);
    }
  }

  lemma {:induction false} ThoseOfThose(packets: seq<Packet>, m: string, kind: Kind)
    ensures Those(Those(packets, m, Any), m, kind) == Those(packets, m, kind)
  {
    if packets != [] {
      ThoseOfThose(packets[1..], m, kind);
      if About(packets[0], m) {
        assert Those(packets, m, Any)[1..] == Those(packets[1..], m, Any);
      }
    }
  }

  /** Delivering takes one message out and puts new ones in. */
  lemma {:induction false} ThoseAfter(flight: seq<Packet>, k: nat, more: seq<Packet>, m: string, kind: Kind)
    requires k < |flight|
    ensures Count(Remove(flight, k) + more, m, kind) == Count(flight, m, kind) - (if Is(flight[k], m, kind) then 1 else 0) + Count(more, m, kind)
    ensures !Is(flight[k], m, kind) ==> Those(Remove(flight, k) + more, m, kind) == Those(flight, m, kind) + Those(more, m, kind)
  {
    var before, after := flight[..k], flight[k + 1..];
    assert flight == before + ([flight[k]] + after);
    ThoseOfConcat(before, [flight[k]] + after, m, kind);
    ThoseOfConcat([flight[k]], after, m, kind);
    ThoseOfOne(flight[k], m, kind);
    ThoseOfConcat(before, after, m, kind);
    ThoseOfConcat(Remove(flight, k), more, m, kind);
  }

  lemma InRest(flight: seq<Packet>, k: nat, q: Packet)
    requires k < |flight|
    ensures q in Remove(flight, k) ==> q in flight
    ensures q in flight && q != flight[k] ==> q in Remove(flight, k)
  {
  }

  // ----- what the handlers send about the mission -----

  function JoinPackets(n: NodeState, sender: NodeId, m: string): seq<Packet> {
    if Volunteers(n) > 0 then [Packet(n.id, sender, MissionJoin(m, n.id, Volunteers(n)))] else []
  }

  function ToldPackets(self: NodeId, targets: seq<NodeId>, msg: Message): seq<Packet> {
    seq(|targets|, i requires 0 <= i < |targets| => Packet(self, targets[i], msg))
  }

  /** What a node that hears of the mission for the first time sends: maybe one join, and the
      broadcast to every peer but the one it heard it from. */
  lemma {:induction false} FirstHearing(hash: HashFn, n: NodeState, sender: NodeId, m: string, objective: string, required: int)
    requires !Knows(n, m)
    ensures var msg := MissionBroadcast(m, objective, required);
            var (n', outs) := Handle(hash, n, sender, msg);
            && Addressed(n.id, sender, outs) == JoinPackets(n, sender, m) + ToldPackets(n.id, Without(n.peers, sender), msg)
            && n' == n.(missions := n'.missions) && n'.missions.Keys == n.missions.Keys + {m} && n'.missions[m].originator == sender
  {
  }

  predicate JoinFor(n: NodeState, sender: NodeId, p: Packet, m: string) {
    Volunteers(n) > 0 && p == Packet(n.id, sender, MissionJoin(m, n.id, Volunteers(n)))
  }

  lemma ToldAreCalls(self: NodeId, targets: seq<NodeId>, m: string, objective: string, required: int)
    ensures var told := ToldPackets(self, targets, MissionBroadcast(m, objective, required));
            && Count(told, m, Any) == |targets| && Count(told, m, Call) == |targets| && Count(told, m, Status) == 0
            && forall u, v :: Count(told, m, JoinOf(u, v)) == 0
  {
    hide Those;
    var told := ToldPackets(self, targets, MissionBroadcast(m, objective, required));
    ThoseAll(told, m, Any);
    ThoseAll(told, m, Call);
    ThoseNone(told, m, Status);
    forall u, v
      ensures Count(told, m, JoinOf(u, v)) == 0
    {
      ThoseNone(told, m, JoinOf(u, v));
    }
  }

  lemma JoinsAreJoins(n: NodeState, sender: NodeId, m: string)
    ensures var joins := JoinPackets(n, sender, m);
            && |joins| <= 1 && Count(joins, m, Any) == |joins| && Count(joins, m, Call) == 0 && Count(joins, m, Status) == 0
            && forall u, v :: Count(joins, m, JoinOf(u, v)) <= if u == n.id && v == sender then 1 else 0
  {
    hide Those, Volunteers;
    var joins := JoinPackets(n, sender, m);
    ThoseAll(joins, m, Any);
    ThoseNone(joins, m, Call);
    ThoseNone(joins, m, Status);
    forall u, v
      ensures Count(joins, m, JoinOf(u, v)) <= if u == n.id && v == sender then 1 else 0
    {
      if u == n.id && v == sender {
        ThoseAll(joins, m, JoinOf(u, v));
      } else {
        ThoseNone(joins, m, JoinOf(u, v));
      }
    }
  }

  /** The counts of what a node that learns of the mission sends. */
  ghost predicate FirstNews(n: NodeState, sender: NodeId, m: string, msg: Message, packets: seq<Packet>) {
    && Count(packets, m, Call) == |n.peers| - (if sender in n.peers then 1 else 0)
    && Count(packets, m, Status) == 0 && Count(packets, m, Any) <= Count(packets, m, Call) + 1
    && (forall u, v :: Count(packets, m, JoinOf(u, v)) <= if u == n.id && v == sender then 1 else 0)
    && (forall p | p in packets :: p.src == n.id && (JoinFor(n, sender, p, m) || (p.msg == msg && p.dst in n.peers && p.dst != sender)))
    && (forall v | v in n.peers && v != sender :: Packet(n.id, v, msg) in packets)
    && (Volunteers(n) > 0 ==> Packet(n.id, sender, MissionJoin(m, n.id, Volunteers(n))) in packets)
  }

  lemma {:induction false} ForwardedPackets(n: NodeState, sender: NodeId, m: string, objective: string, required: int)
    requires Distinct(n.peers)
    ensures var msg := MissionBroadcast(m, objective, required);
            FirstNews(n, sender, m, msg, JoinPackets(n, sender, m) + ToldPackets(n.id, Without(n.peers, sender), msg))
  {
    hide Those, Volunteers, Without;
    var msg := MissionBroadcast(m, objective, required);
    var targets := Without(n.peers, sender);
    WithoutOne(n.peers, sender);
    var joins := JoinPackets(n, sender, m);
    var told := ToldPackets(n.id, targets, msg);
    ToldAreCalls(n.id, targets, m, objective, required);
    JoinsAreJoins(n, sender, m);
    forall kind
      ensures Count(joins + told, m, kind) == Count(joins, m, kind) + Count(told, m, kind)
    {
      ThoseOfConcat(joins, told, m, kind);
    }
    forall v | v in n.peers && v != sender
      ensures Packet(n.id, v, msg) in joins + told
    {
      var i :| 0 <= i < |targets| && targets[i] == v;
      assert told[i] == Packet(n.id, v, msg);
    }
    if Volunteers(n) > 0 {
      assert (joins + told)[0] == Packet(n.id, sender, MissionJoin(m, n.id, Volunteers(n)));
    }
  }

  // ----- steps that have nothing to do with the mission -----

  lemma HandleOther(hash: HashFn, n: NodeState, sender: NodeId, msg: Message, m: string)
    requires !msg.Handshake? && !msg.HandshakeAck? && !About(Packet(sender, n.id, msg), m)
    ensures var (n', outs) := Handle(hash, n, sender, msg);
            && SameRecord(m, n, n')
            && forall q | q in Addressed(n.id, sender, outs) :: !About(q, m) && !q.msg.Handshake? && !q.msg.HandshakeAck?
  {
    hide Put, HexDigests, Wanted, Enlist, AgentsOf, Volunteers, Without;
    SendCatalogIsSmall(n.store);
  }

  lemma OtherDelivery(hash: HashFn, m: string, f: Flood, k: nat)
    requires k < |f.net.flight| && !About(f.net.flight[k], m) && NoHandshakes(f.net.flight)
    requires forall u | u in f.net.nodes :: f.net.nodes[u].id == u
    ensures SameForMission(m, f.net, DeliverAt(hash, f.net, k))
    ensures Delivered(hash, f, k, m) == f.(net := DeliverAt(hash, f.net, k))
  {
    hide Handle, Those, Addressed;
    var p := f.net.flight[k];
    var more := NewPackets(hash, f.net, k);
    if p.dst in f.net.nodes {
      HandleOther(hash, f.net.nodes[p.dst], p.src, p.msg, m);
    }
    assert DeliverAt(hash, f.net, k).flight == Remove(f.net.flight, k) + more;
    ThoseAfter(f.net.flight, k, more, m, Any);
    ThoseNone(more, m, Any);
    ThoseNone(more, m, Call);
    ThoseNone(more, m, Status);
  }

  lemma AsideKeepsPackets(m: string, net: Net, net': Net)
    requires SameForMission(m, net, net')
    ensures forall p | About(p, m) :: p in net.flight <==> p in net'.flight
    ensures forall kind :: Count(net'.flight, m, kind) == Count(net.flight, m, kind)
  {
    hide Those, SameRecord;
    ThoseMembers(net.flight, m, Any);
    ThoseMembers(net'.flight, m, Any);
    assert forall p :: Is(p, m, Any) == About(p, m);
    forall kind
      ensures Count(net'.flight, m, kind) == Count(net.flight, m, kind)
    {
      ThoseOfThose(net.flight, m, kind);
      ThoseOfThose(net'.flight, m, kind);
    }
  }

  lemma AsideKeepsSpreading(g: Graph, m: string, f: Flood, net: Net)
    requires Spreading(g, m, f) && SameForMission(m, f.net, net)
    ensures Spreading(g, m, f.(net := net))
  {
    hide Those, Count;
    var f' := f.(net := net);
    AsideKeepsPackets(m, f.net, net);
    assert forall i | 0 <= i < |f.order| :: HeardFromEarlier(g, m, f, i) ==> HeardFromEarlier(g, m, f', i);
    forall u, v | u in f.order && u in g.peers && v in g.peers[u]
      ensures ToldOrTelling(m, f', u, v)
    {
      assert ToldOrTelling(m, f, u, v);
    }
  }

  lemma AsideKeeps(g: Graph, m: string, root: NodeId, required: int, f: Flood, net: Net)
    requires Spreading(g, m, f) && Counted(g, m, f) && Recruiting(g, m, root, required, f) && SameForMission(m, f.net, net)
    ensures var f' := f.(net := net); Spreading(g, m, f') && Counted(g, m, f') && Recruiting(g, m, root, required, f')
  {
    hide Those, Count, Sum, Recorded, Spreading;
    AsideKeepsSpreading(g, m, f, net);
    AsideKeepsPackets(m, f.net, net);
    var joined := f.net.nodes[root].missions[m].joined;
    forall u
      ensures JoinsOnce(m, root, net, joined, u)
    {
      assert JoinsOnce(m, root, f.net, joined, u);
    }
  }

  // ----- a message about the mission that is no news -----

  /** What a node that knows the mission makes of a message about it: `told` are the status messages it sends. */
  ghost predicate Notes(g: Graph, m: string, root: NodeId, n: NodeState, p: Packet, n': NodeState, told: seq<Packet>) {
    && n'.id == n.id && n'.peers == n.peers && n'.agents == n.agents && (Knows(n', m) <==> Knows(n, m))
    && (Knows(n, m) ==> n'.missions[m].originator == n.missions[m].originator && n'.missions[m].required == n.missions[m].required)
    && (forall q | q in told :: q.src == n.id && q.dst in n.peers && q.msg == MissionStatus(m, Some("active")))
    && (told != [] ==> Knows(n, m) && n.missions[m].originator == n.id)
    && (Knows(n, m) && n.id == root && n.missions[m].originator == root ==>
          var was, now := n.missions[m], n'.missions[m];
          if !p.msg.MissionJoin? then now == was && told == []
          else
            && now.joined == Enlist(was.joined, p.msg.node, p.msg.agents)
            && (AgentsOf(now.joined) >= was.required ==> now.status == "active" && |told| == |n.peers|)
            && (AgentsOf(now.joined) < was.required ==> now.status == was.status && told == []))
  }

  lemma HandleOld(hash: HashFn, g: Graph, m: string, root: NodeId, n: NodeState, p: Packet)
    requires About(p, m) && InStyle(m, root, p) && p.dst == n.id && (Carries(p, m) ==> Knows(n, m))
    ensures var (n', outs) := Handle(hash, n, p.src, p.msg); Notes(g, m, root, n, p, n', Addressed(n.id, p.src, outs))
  {
    hide Enlist, AgentsOf;
  }

  function Noted(f: Flood, k: nat, n: NodeState, told: seq<Packet>): Flood
    requires k < |f.net.flight|
  {
    Flood(Net(f.net.nodes[n.id := n], Remove(f.net.flight, k) + told), f.order, f.sent, f.statuses + |told|, f.delivered + 1)
  }

  /** What `Noted` is applied to. */
  ghost predicate NotesAt(g: Graph, m: string, root: NodeId, f: Flood, k: nat, n: NodeState, told: seq<Packet>) {
    && Undirected(g) && Spreading(g, m, f) && f.order[0] == root && k < |f.net.flight|
    && var p := f.net.flight[k];
       && About(p, m) && InStyle(m, root, p) && (Carries(p, m) ==> p.dst in f.order)
       && p.dst in f.net.nodes && n.id == p.dst && Notes(g, m, root, f.net.nodes[p.dst], p, n, told)
  }

  lemma StatusesAreCounted(told: seq<Packet>, m: string)
    requires forall q | q in told :: About(q, m) && q.msg.MissionStatus?
    ensures Count(told, m, Any) == |told| && Count(told, m, Call) == 0 && Count(told, m, Status) == |told|
    ensures forall u, v :: Count(told, m, JoinOf(u, v)) == 0
  {
    hide Those;
    ThoseAll(told, m, Any);
    ThoseAll(told, m, Status);
    ThoseNone(told, m, Call);
    forall u, v
      ensures Count(told, m, JoinOf(u, v)) == 0
    {
      ThoseNone(told, m, JoinOf(u, v));
    }
  }

  lemma OldNews(hash: HashFn, g: Graph, m: string, root: NodeId, f: Flood, k: nat) returns (n: NodeState, told: seq<Packet>)
    requires Undirected(g) && Spreading(g, m, f) && f.order[0] == root && k < |f.net.flight|
    requires var p := f.net.flight[k]; About(p, m) && InStyle(m, root, p) && (Carries(p, m) ==> p.dst in f.order)
    ensures NotesAt(g, m, root, f, k, n, told) && Delivered(hash, f, k, m) == Noted(f, k, n, told)
  {
    hide Handle, Those, ToldOrTelling, HeardFromEarlier, InStyle, AgentsOf, Enlist;
    var p := f.net.flight[k];
    assert p in f.net.flight && ComesFromKnower(g, f, p) && p.dst in g.peers;
    n := Handle(hash, f.net.nodes[p.dst], p.src, p.msg).0;
    told := NewPackets(hash, f.net, k);
    HandleOld(hash, g, m, root, f.net.nodes[p.dst], p);
    StatusesAreCounted(told, m);
  }

  /** Only the broadcaster names itself as the one it heard from. */
  lemma OnlyRootStarted(g: Graph, m: string, f: Flood, u: NodeId)
    requires Undirected(g) && Spreading(g, m, f) && u in f.order
    ensures f.net.nodes[u].missions[m].originator == u <==> u == f.order[0]
  {
    var i :| 0 <= i < |f.order| && f.order[i] == u;
    assert HeardFromEarlier(g, m, f, i);
  }

  lemma NotedFlight(f: Flood, k: nat, n: NodeState, told: seq<Packet>, q: Packet)
    requires k < |f.net.flight|
    ensures q in Noted(f, k, n, told).net.flight ==> q in f.net.flight || q in told
    ensures q in f.net.flight && q != f.net.flight[k] ==> q in Noted(f, k, n, told).net.flight
  {
    InRest(f.net.flight, k, q);
  }

  lemma NotedKeepsPlace(g: Graph, m: string, root: NodeId, f: Flood, k: nat, n: NodeState, told: seq<Packet>)
    requires NotesAt(g, m, root, f, k, n, told)
    ensures var f' := Noted(f, k, n, told); OnGraph(g, f'.net) && OrderIsKnown(m, f')
  {
    hide HeardFromEarlier, ToldOrTelling, ComesFromKnower, InStyle, AgentsOf, Enlist, NoHandshakes, Remove;
  }

  lemma NotedKeepsSources(g: Graph, m: string, root: NodeId, f: Flood, k: nat, n: NodeState, told: seq<Packet>, q: Packet)
    requires NotesAt(g, m, root, f, k, n, told) && q in Noted(f, k, n, told).net.flight
    ensures !q.msg.Handshake? && !q.msg.HandshakeAck? && (About(q, m) ==> ComesFromKnower(g, f, q))
  {
    hide HeardFromEarlier, ToldOrTelling, InStyle, AgentsOf, Enlist, Remove;
    NotedFlight(f, k, n, told, q);
  }

  lemma NotedKeepsTree(g: Graph, m: string, root: NodeId, f: Flood, k: nat, n: NodeState, told: seq<Packet>, i: nat)
    requires NotesAt(g, m, root, f, k, n, told) && i < |f.order|
    ensures HeardFromEarlier(g, m, Noted(f, k, n, told), i)
  {
    hide ToldOrTelling, ComesFromKnower;
    assert HeardFromEarlier(g, m, f, i);
  }

  lemma NotedKeepsCover(g: Graph, m: string, root: NodeId, f: Flood, k: nat, n: NodeState, told: seq<Packet>, u: NodeId, v: NodeId)
    requires NotesAt(g, m, root, f, k, n, told) && u in f.order && u in g.peers && v in g.peers[u]
    ensures ToldOrTelling(m, Noted(f, k, n, told), u, v)
  {
    hide HeardFromEarlier, ComesFromKnower, Notes;
    assert ToldOrTelling(m, f, u, v);
    if v !in f.order {
      var p :| p in f.net.flight && p.src == u && p.dst == v && Carries(p, m);
      NotedFlight(f, k, n, told, p);
    }
  }

  lemma NotedKeepsSpreading(g: Graph, m: string, root: NodeId, f: Flood, k: nat, n: NodeState, told: seq<Packet>)
    requires NotesAt(g, m, root, f, k, n, told)
    ensures Spreading(g, m, Noted(f, k, n, told))
  {
    hide HeardFromEarlier, ToldOrTelling, OnGraph, OrderIsKnown, Notes;
    var f' := Noted(f, k, n, told);
    NotedKeepsPlace(g, m, root, f, k, n, told);
    assert NoHandshakes(f'.net.flight) && forall q | q in f'.net.flight && About(q, m) :: ComesFromKnower(g, f', q) by {
      forall q | q in f'.net.flight
        ensures !q.msg.Handshake? && !q.msg.HandshakeAck? && (About(q, m) ==> ComesFromKnower(g, f', q))
      {
        NotedKeepsSources(g, m, root, f, k, n, told, q);
      }
    }
    forall i | 0 <= i < |f'.order|
      ensures HeardFromEarlier(g, m, f', i)
    {
      NotedKeepsTree(g, m, root, f, k, n, told, i);
    }
    forall u, v | u in f'.order && u in g.peers && v in g.peers[u]
      ensures ToldOrTelling(m, f', u, v)
    {
      NotedKeepsCover(g, m, root, f, k, n, told, u, v);
    }
  }

  lemma NotedKeepsCounted(g: Graph, m: string, root: NodeId, f: Flood, k: nat, n: NodeState, told: seq<Packet>)
    requires NotesAt(g, m, root, f, k, n, told) && Counted(g, m, f)
    ensures Counted(g, m, Noted(f, k, n, told))
  {
    hide Those, Sum, Spreading;
    ThoseAfter(f.net.flight, k, told, m, Any);
    StatusesAreCounted(told, m);
  }

  lemma {:induction false} EnlistNew(joined: seq<Joined>, u: NodeId, agents: nat)
    requires !Listed(joined, u)
    ensures Enlist(joined, u, agents) == joined + [Joined(u, agents)]
    ensures AgentsOf(Enlist(joined, u, agents)) == AgentsOf(joined) + agents
  {
    if joined != [] {
      assert !Listed(joined[1..], u) by {
        assert forall i :: 0 <= i < |joined| - 1 ==> joined[1..][i] == joined[i + 1];
      }
      EnlistNew(joined[1..], u, agents);
      assert joined[0].node != u;
    }
  }

  lemma ListedAfter(joined: seq<Joined>, u: NodeId, agents: nat, v: NodeId)
    ensures Listed(joined + [Joined(u, agents)], v) <==> Listed(joined, v) || v == u
  {
    var now := joined + [Joined(u, agents)];
    assert now[|joined|].node == u;
    if Listed(joined, v) {
      var i :| 0 <= i < |joined| && joined[i].node == v;
      assert now[i].node == v;
    }
  }

  /** A join reaches the broadcaster: its sender is a peer that heard from it first and is not yet listed. */
  lemma NotedJoinIsNew(g: Graph, m: string, root: NodeId, required: int, f: Flood, k: nat, n: NodeState, told: seq<Packet>)
    requires NotesAt(g, m, root, f, k, n, told) && Recruiting(g, m, root, required, f)
    requires n.id == root && f.net.flight[k].msg.MissionJoin?
    ensures var p := f.net.flight[k];
            var was, now := f.net.nodes[root].missions[m], n.missions[m];
            && !Listed(was.joined, p.src) && now.joined == was.joined + [Joined(p.src, p.msg.agents)]
            && AgentsOf(now.joined) == AgentsOf(was.joined) + p.msg.agents && p.msg.agents <= AGENTS_PER_MISSION
            && Child(m, f.net, root, p.src)
  {
    hide Those, Sum, Enlist, AgentsOf, Spreading, FairlyJoined;
    var p := f.net.flight[k];
    var was := f.net.nodes[root].missions[m];
    assert JoinsOnce(m, root, f.net, was.joined, p.src);
    ThoseMembers(f.net.flight, m, JoinOf(p.src, root));
    assert p in f.net.flight && Is(p, m, JoinOf(p.src, root));
    assert Notes(g, m, root, f.net.nodes[root], p, n, told);
    EnlistNew(was.joined, p.src, p.msg.agents);
  }

  lemma RecordedNames(mission: Mission, root: NodeId, required: int, peers: nat, statuses: nat)
    requires Recorded(mission, root, required, peers, statuses)
    ensures mission.originator == root && mission.required == required
  {
  }

  lemma JoinIsRecorded(was: Mission, now: Mission, root: NodeId, required: int, peers: nat, statuses: nat, more: nat, join: Joined)
    requires Recorded(was, root, required, peers, statuses) && !Listed(was.joined, join.node) && join.agents <= AGENTS_PER_MISSION
    requires now.originator == root && now.required == required
    requires now.joined == was.joined + [join] && AgentsOf(now.joined) == AgentsOf(was.joined) + join.agents
    requires if AgentsOf(now.joined) >= required then now.status == "active" && more == peers else now.status == was.status && more == 0
    ensures Recorded(now, root, required, peers, statuses + more)
  {
    hide AgentsOf;
    assert peers * |now.joined| == peers * |was.joined| + peers;
  }

  lemma NotedKeepsMission(g: Graph, m: string, root: NodeId, required: int, f: Flood, k: nat, n: NodeState, told: seq<Packet>)
    requires NotesAt(g, m, root, f, k, n, told) && Recruiting(g, m, root, required, f)
    ensures var f' := Noted(f, k, n, told);
            && root in f'.net.nodes && Knows(f'.net.nodes[root], m)
            && Recorded(f'.net.nodes[root].missions[m], root, required, Degree(g, root), f'.statuses)
  {
    hide Those, Sum, Enlist, AgentsOf, JoinsOnce, FairlyJoined, InStyle, HeardFromEarlier, ToldOrTelling, Recorded;
    var p := f.net.flight[k];
    assert p in f.net.flight && Notes(g, m, root, f.net.nodes[p.dst], p, n, told);
    RecordedNames(f.net.nodes[root].missions[m], root, required, Degree(g, root), f.statuses);
    if n.id == root && p.msg.MissionJoin? {
      NotedJoinIsNew(g, m, root, required, f, k, n, told);
      JoinIsRecorded(f.net.nodes[root].missions[m], n.missions[m], root, required, Degree(g, root), f.statuses, |told|,
                     Joined(p.src, p.msg.agents));
    } else if n.id != root && told != [] {
      OnlyRootStarted(g, m, f, n.id);
    }
  }

  lemma NotedKeepsJoins(g: Graph, m: string, root: NodeId, required: int, f: Flood, k: nat, n: NodeState, told: seq<Packet>, u: NodeId)
    requires NotesAt(g, m, root, f, k, n, told) && Recruiting(g, m, root, required, f)
    ensures var f' := Noted(f, k, n, told); root in f'.net.nodes && m in f'.net.nodes[root].missions && JoinsOnce(m, root, f'.net, f'.net.nodes[root].missions[m].joined, u)
  {
    hide Those, Sum, Enlist, AgentsOf, InStyle, HeardFromEarlier, ToldOrTelling, ComesFromKnower, FairlyJoined, Staffed, Undirected, NoHandshakes, OrderIsKnown, Remove;
    var p := f.net.flight[k];
    var was := f.net.nodes[root].missions[m].joined;
    assert JoinsOnce(m, root, f.net, was, u);
    assert Notes(g, m, root, f.net.nodes[p.dst], p, n, told);
    ThoseAfter(f.net.flight, k, told, m, JoinOf(u, root));
    StatusesAreCounted(told, m);
    if n.id == root && p.msg.MissionJoin? {
      NotedJoinIsNew(g, m, root, required, f, k, n, told);
      ListedAfter(was, p.src, p.msg.agents, u);
    }
  }

  lemma NotedKeepsRecruiting(g: Graph, m: string, root: NodeId, required: int, f: Flood, k: nat, n: NodeState, told: seq<Packet>)
    requires NotesAt(g, m, root, f, k, n, told) && Recruiting(g, m, root, required, f)
    ensures Recruiting(g, m, root, required, Noted(f, k, n, told))
  {
    hide Those, Enlist, AgentsOf, JoinsOnce, Recorded, HeardFromEarlier, ToldOrTelling, ComesFromKnower, Notes;
    var f' := Noted(f, k, n, told);
    NotedKeepsMission(g, m, root, required, f, k, n, told);
    forall u
      ensures JoinsOnce(m, root, f'.net, f'.net.nodes[root].missions[m].joined, u)
    {
      NotedKeepsJoins(g, m, root, required, f, k, n, told, u);
    }
    forall q | q in f'.net.flight
      ensures InStyle(m, root, q)
    {
      NotedFlight(f, k, n, told, q);
      if q in told {
        ToldInStyle(g, m, root, f, k, n, told, q);
      }
    }
  }

  lemma ToldInStyle(g: Graph, m: string, root: NodeId, f: Flood, k: nat, n: NodeState, told: seq<Packet>, q: Packet)
    requires NotesAt(g, m, root, f, k, n, told) && q in told
    ensures InStyle(m, root, q)
  {
    hide HeardFromEarlier, ToldOrTelling, ComesFromKnower;
    OnlyRootStarted(g, m, f, n.id);
  }

  // ----- the first time a node hears of the mission -----

  /** The state after node `n.id` learned of the mission. */
  function Learned(f: Flood, k: nat, n: NodeState, told: seq<Packet>, more: nat): Flood
    requires k < |f.net.flight|
  {
    Flood(Net(f.net.nodes[n.id := n], Remove(f.net.flight, k) + told), f.order + [n.id], f.sent + more, f.statuses, f.delivered + 1)
  }

  /** What `Learned` is applied to. */
  ghost predicate Learns(g: Graph, m: string, f: Flood, k: nat, n: NodeState, told: seq<Packet>, more: nat) {
    && Undirected(g) && Spreading(g, m, f) && k < |f.net.flight| && Carries(f.net.flight[k], m)
    && var p := f.net.flight[k];
       && n.id == p.dst && n.id in f.net.nodes && !Knows(f.net.nodes[n.id], m)
       && n.peers == f.net.nodes[n.id].peers && n.agents == f.net.nodes[n.id].agents && m in n.missions && n.missions[m].originator == p.src
       && p.src in n.peers && Degree(g, n.id) == |n.peers| && more == Degree(g, n.id) - 1
       && FirstNews(n, p.src, m, p.msg, told)
  }

  lemma NewsArrives(hash: HashFn, g: Graph, m: string, f: Flood, k: nat) returns (n: NodeState, told: seq<Packet>, more: nat)
    requires Undirected(g) && Spreading(g, m, f) && k < |f.net.flight|
    requires var p := f.net.flight[k]; Carries(p, m) && p.dst !in f.order
    ensures Learns(g, m, f, k, n, told, more)
    ensures Delivered(hash, f, k, m) == Learned(f, k, n, told, more)
  {
    hide OnMissionBroadcast, Those, Without, FirstNews, HeardFromEarlier, ToldOrTelling;
    var p := f.net.flight[k];
    assert p in f.net.flight && ComesFromKnower(g, f, p) && p.src in g.peers[p.dst];
    var was := f.net.nodes[p.dst];
    n := Handle(hash, was, p.src, p.msg).0;
    told := NewPackets(hash, f.net, k);
    assert |g.peers[p.dst]| > 0;
    more := Degree(g, p.dst) - 1;
    FirstHearing(hash, was, p.src, m, p.msg.objective, p.msg.required);
    ForwardedPackets(was, p.src, m, p.msg.objective, p.msg.required);
    FirstNewsOf(was, n, p.src, m, p.msg, told);
  }

  lemma FirstNewsOf(was: NodeState, n: NodeState, sender: NodeId, m: string, msg: Message, packets: seq<Packet>)
    requires FirstNews(was, sender, m, msg, packets) && n == was.(missions := n.missions)
    ensures FirstNews(n, sender, m, msg, packets)
    ensures sender in n.peers ==> Count(packets, m, Call) == |n.peers| - 1
    ensures Count(packets, m, Status) == 0
  {
    hide Those;
  }

  lemma LearnedFlight(f: Flood, k: nat, n: NodeState, told: seq<Packet>, more: nat, q: Packet)
    requires k < |f.net.flight|
    ensures q in Learned(f, k, n, told, more).net.flight ==> q in f.net.flight || q in told
    ensures q in told ==> q in Learned(f, k, n, told, more).net.flight
    ensures q in f.net.flight && q != f.net.flight[k] ==> q in Learned(f, k, n, told, more).net.flight
  {
    InRest(f.net.flight, k, q);
  }

  lemma LearnedKeepsPlace(g: Graph, m: string, f: Flood, k: nat, n: NodeState, told: seq<Packet>, more: nat)
    requires Learns(g, m, f, k, n, told, more)
    ensures var f' := Learned(f, k, n, told, more); OnGraph(g, f'.net) && OrderIsKnown(m, f')
  {
    hide HeardFromEarlier, ToldOrTelling, ComesFromKnower, FirstNews, NoHandshakes, Remove;
    assert n.id !in f.order;
  }

  lemma LearnedKeepsSources(g: Graph, m: string, f: Flood, k: nat, n: NodeState, told: seq<Packet>, more: nat, q: Packet)
    requires Learns(g, m, f, k, n, told, more) && q in Learned(f, k, n, told, more).net.flight
    ensures !q.msg.Handshake? && !q.msg.HandshakeAck? && (About(q, m) ==> ComesFromKnower(g, Learned(f, k, n, told, more), q))
  {
    hide HeardFromEarlier, ToldOrTelling, Those, Volunteers, Remove, OrderIsKnown, Undirected;
    LearnedFlight(f, k, n, told, more, q);
  }

  lemma LearnedKeepsTree(g: Graph, m: string, f: Flood, k: nat, n: NodeState, told: seq<Packet>, more: nat, i: nat)
    requires Learns(g, m, f, k, n, told, more) && i <= |f.order|
    ensures HeardFromEarlier(g, m, Learned(f, k, n, told, more), i)
  {
    hide ToldOrTelling, FirstNews;
    var f' := Learned(f, k, n, told, more);
    assert n.id !in f.order;
    if i < |f.order| {
      assert HeardFromEarlier(g, m, f, i) && f'.order[..i] == f.order[..i] && f.order[i] in f.order;
    } else {
      assert f'.order[..i] == f.order;
      assert f.net.flight[k] in f.net.flight && ComesFromKnower(g, f, f.net.flight[k]);
    }
  }

  lemma LearnedKeepsCover(g: Graph, m: string, f: Flood, k: nat, n: NodeState, told: seq<Packet>, more: nat, u: NodeId, v: NodeId)
    requires Learns(g, m, f, k, n, told, more) && u in f.order + [n.id] && u in g.peers && v in g.peers[u]
    ensures ToldOrTelling(m, Learned(f, k, n, told, more), u, v)
  {
    hide HeardFromEarlier, Those, Volunteers;
    var f' := Learned(f, k, n, told, more);
    var p := f.net.flight[k];
    assert p in f.net.flight && ComesFromKnower(g, f, p);
    if u in f.order {
      assert ToldOrTelling(m, f, u, v);
      if v !in f'.order {
        var q :| q in f.net.flight && q.src == u && q.dst == v && Carries(q, m);
        LearnedFlight(f, k, n, told, more, q);
      }
    } else if v != p.src {
      LearnedFlight(f, k, n, told, more, Packet(n.id, v, p.msg));
    }
  }

  lemma LearnedKeepsSpreading(g: Graph, m: string, f: Flood, k: nat, n: NodeState, told: seq<Packet>, more: nat)
    requires Learns(g, m, f, k, n, told, more)
    ensures Spreading(g, m, Learned(f, k, n, told, more))
  {
    hide HeardFromEarlier, ComesFromKnower, ToldOrTelling, OnGraph, OrderIsKnown, FirstNews, Remove;
    var f' := Learned(f, k, n, told, more);
    LearnedKeepsPlace(g, m, f, k, n, told, more);
    forall q | q in f'.net.flight
      ensures !q.msg.Handshake? && !q.msg.HandshakeAck? && (About(q, m) ==> ComesFromKnower(g, f', q))
    {
      LearnedKeepsSources(g, m, f, k, n, told, more, q);
    }
    forall i | 0 <= i < |f'.order|
      ensures HeardFromEarlier(g, m, f', i)
    {
      LearnedKeepsTree(g, m, f, k, n, told, more, i);
    }
    forall u, v | u in f'.order && u in g.peers && v in g.peers[u]
      ensures ToldOrTelling(m, f', u, v)
    {
      LearnedKeepsCover(g, m, f, k, n, told, more, u, v);
    }
  }

  lemma LearnedKeepsCounted(g: Graph, m: string, f: Flood, k: nat, n: NodeState, told: seq<Packet>, more: nat)
    requires Learns(g, m, f, k, n, told, more) && Counted(g, m, f)
    ensures Counted(g, m, Learned(f, k, n, told, more))
  {
    hide Those, Spreading;
    ThoseAfter(f.net.flight, k, told, m, Any);
    assert (f.order + [n.id])[..|f.order|] == f.order;
  }

  lemma LearnedKeepsJoins(g: Graph, m: string, root: NodeId, required: int, f: Flood, k: nat, n: NodeState, told: seq<Packet>,
          more: nat, u: NodeId)
    requires Learns(g, m, f, k, n, told, more) && Recruiting(g, m, root, required, f)
    ensures JoinsOnce(m, root, Learned(f, k, n, told, more).net, f.net.nodes[root].missions[m].joined, u)
  {
    hide Those, Recorded, HeardFromEarlier, ToldOrTelling, ComesFromKnower, InStyle, Undirected, OrderIsKnown;
    assert JoinsOnce(m, root, f.net, f.net.nodes[root].missions[m].joined, u);
    ThoseAfter(f.net.flight, k, told, m, JoinOf(u, root));
  }

  lemma LearnedKeepsStyle(g: Graph, m: string, root: NodeId, required: int, f: Flood, k: nat, n: NodeState, told: seq<Packet>,
          more: nat, q: Packet)
    requires Learns(g, m, f, k, n, told, more) && Recruiting(g, m, root, required, f) && q in Learned(f, k, n, told, more).net.flight
    ensures InStyle(m, root, q)
  {
    hide Those, Recorded, HeardFromEarlier, ToldOrTelling, ComesFromKnower, JoinsOnce, Undirected, OrderIsKnown, Remove;
    LearnedFlight(f, k, n, told, more, q);
  }

  lemma LearnedKeepsRecruiting(g: Graph, m: string, root: NodeId, required: int, f: Flood, k: nat, n: NodeState, told: seq<Packet>,
          more: nat)
    requires Learns(g, m, f, k, n, told, more) && Recruiting(g, m, root, required, f)
    ensures Recruiting(g, m, root, required, Learned(f, k, n, told, more))
  {
    hide Those, Recorded, HeardFromEarlier, ToldOrTelling, ComesFromKnower, InStyle, JoinsOnce, FirstNews, Remove;
    var f' := Learned(f, k, n, told, more);
    var joined := f.net.nodes[root].missions[m].joined;
    forall u
      ensures JoinsOnce(m, root, f'.net, joined, u)
    {
      LearnedKeepsJoins(g, m, root, required, f, k, n, told, more, u);
    }
    forall q | q in f'.net.flight
      ensures InStyle(m, root, q)
    {
      LearnedKeepsStyle(g, m, root, required, f, k, n, told, more, q);
    }
  }

  // ----- runs -----

  ghost predicate Sound(g: Graph, m: string, root: NodeId, required: int, f: Flood) {
    Spreading(g, m, f) && Counted(g, m, f) && Recruiting(g, m, root, required, f)
  }

  lemma StepKeeps(hash: HashFn, g: Graph, m: string, root: NodeId, required: int, f: Flood, move: Move)
    requires Undirected(g) && Sound(g, m, root, required, f) && Possible(f, move, m)
    ensures Sound(g, m, root, required, After(hash, f, move, m)) && f.order <= After(hash, f, move, m).order
  {
    hide Spreading, Counted, Recruiting, SameForMission, NotesAt, Learns, Delivered;
    match move
    case Aside(net) => AsideKeeps(g, m, root, required, f, net);
    case Deliver(k) => DeliveryKeeps(hash, g, m, root, required, f, k);
  }

  lemma DeliveryKeeps(hash: HashFn, g: Graph, m: string, root: NodeId, required: int, f: Flood, k: nat)
    requires Undirected(g) && Sound(g, m, root, required, f) && k < |f.net.flight|
    ensures var f' := Delivered(hash, f, k, m); Sound(g, m, root, required, f') && f.order <= f'.order
  {
    hide Counted, Delivered, HeardFromEarlier, ToldOrTelling, ComesFromKnower, SameForMission, NotesAt, Learns, InStyle, JoinsOnce, Recorded;
    var p := f.net.flight[k];
    assert p in f.net.flight;
    if !About(p, m) {
      OtherDelivery(hash, m, f, k);
      AsideKeeps(g, m, root, required, f, DeliverAt(hash, f.net, k));
    } else if Carries(p, m) && p.dst !in f.order {
      var n, told, more := NewsArrives(hash, g, m, f, k);
      LearnedKeepsSpreading(g, m, f, k, n, told, more);
      LearnedKeepsCounted(g, m, f, k, n, told, more);
      LearnedKeepsRecruiting(g, m, root, required, f, k, n, told, more);
    } else {
      var n, told := OldNews(hash, g, m, root, f, k);
      NotedKeepsSpreading(g, m, root, f, k, n, told);
      NotedKeepsCounted(g, m, root, f, k, n, told);
      NotedKeepsRecruiting(g, m, root, required, f, k, n, told);
    }
  }

  /** Where a flood may start: a network on the graph in which nobody has heard of the mission. What else is under
      way does not matter, as long as it registers no peers. */
  ghost predicate Ready(g: Graph, net: Net, root: NodeId, m: string) {
    && Undirected(g) && OnGraph(g, net) && NoHandshakes(net.flight) && root in net.nodes
    && (forall u | u in net.nodes :: !Knows(net.nodes[u], m))
    && (forall p | p in net.flight :: !About(p, m))
  }

  /** The state right after the broadcast. */
  function Begun(g: Graph, net: Net, root: NodeId, n: NodeState, msg: Message): Flood
    requires root in g.peers
  {
    Flood(Net(net.nodes[root := n], net.flight + ToldPackets(root, g.peers[root], msg)), [root], Degree(g, root), 0, 0)
  }

  lemma BeginIsBegun(g: Graph, net: Net, root: NodeId, m: string, objective: string, required: int)
    requires Ready(g, net, root, m)
    ensures var n := StartMission(net.nodes[root], m, objective, required).0;
            Begin(net, root, m, objective, required) == Begun(g, net, root, n, MissionBroadcast(m, objective, required))
  {
    hide Those;
    var told := ToldPackets(root, g.peers[root], MissionBroadcast(m, objective, required));
    ToldAreCalls(root, g.peers[root], m, objective, required);
    var outs := StartMission(net.nodes[root], m, objective, required).1;
    assert Addressed(root, root, outs) == told;
  }

  lemma BegunCounts(g: Graph, net: Net, root: NodeId, n: NodeState, m: string, objective: string, required: int)
    requires Ready(g, net, root, m)
    ensures var f := Begun(g, net, root, n, MissionBroadcast(m, objective, required));
            Counted(g, m, f) && forall u :: Count(f.net.flight, m, JoinOf(u, root)) == 0
  {
    hide Those;
    var told := ToldPackets(root, g.peers[root], MissionBroadcast(m, objective, required));
    ToldAreCalls(root, g.peers[root], m, objective, required);
    forall kind
      ensures Count(net.flight + told, m, kind) == Count(told, m, kind)
    {
      ThoseOfConcat(net.flight, told, m, kind);
      ThoseNone(net.flight, m, kind);
    }
    assert Sum((u: Node) => Degree(g, u) - 1, [root]) == Degree(g, root) - 1;
  }

  lemma BegunReaches(g: Graph, net: Net, root: NodeId, n: NodeState, m: string, msg: Message, v: NodeId)
    requires root in g.peers && v in g.peers[root] && msg.MissionBroadcast? && msg.mission == m
    ensures ToldOrTelling(m, Begun(g, net, root, n, msg), root, v)
  {
    var f := Begun(g, net, root, n, msg);
    var i :| 0 <= i < |g.peers[root]| && g.peers[root][i] == v;
    assert f.net.flight[|net.flight| + i] == Packet(root, v, msg);
  }

  lemma BegunFlight(g: Graph, net: Net, root: NodeId, n: NodeState, m: string, msg: Message, p: Packet)
    requires Ready(g, net, root, m) && msg.MissionBroadcast? && msg.mission == m && p in Begun(g, net, root, n, msg).net.flight
    ensures !p.msg.Handshake? && !p.msg.HandshakeAck? && InStyle(m, root, p)
    ensures About(p, m) ==> ComesFromKnower(g, Begun(g, net, root, n, msg), p)
  {
    hide Undirected;
  }

  lemma BegunIsSpreading(g: Graph, net: Net, root: NodeId, n: NodeState, m: string, objective: string, required: int)
    requires Ready(g, net, root, m) && n == StartMission(net.nodes[root], m, objective, required).0
    ensures Spreading(g, m, Begun(g, net, root, n, MissionBroadcast(m, objective, required)))
  {
    hide ToldOrTelling, ComesFromKnower, ToldPackets;
    var msg := MissionBroadcast(m, objective, required);
    var f := Begun(g, net, root, n, msg);
    assert HeardFromEarlier(g, m, f, 0);
    forall v | v in g.peers[root]
      ensures ToldOrTelling(m, f, root, v)
    {
      BegunReaches(g, net, root, n, m, msg, v);
    }
    forall p | p in f.net.flight
      ensures !p.msg.Handshake? && !p.msg.HandshakeAck? && (About(p, m) ==> ComesFromKnower(g, f, p))
    {
      BegunFlight(g, net, root, n, m, msg, p);
    }
  }

  lemma BegunKeeps(g: Graph, net: Net, root: NodeId, n: NodeState, m: string, objective: string, required: int)
    requires Ready(g, net, root, m) && n == StartMission(net.nodes[root], m, objective, required).0
    ensures Sound(g, m, root, required, Begun(g, net, root, n, MissionBroadcast(m, objective, required)))
  {
    hide Those, Counted, Spreading, ToldPackets, InStyle, Undirected;
    BegunCounts(g, net, root, n, m, objective, required);
    BegunIsSpreading(g, net, root, n, m, objective, required);
    var f := Begun(g, net, root, n, MissionBroadcast(m, objective, required));
    forall p | p in f.net.flight
      ensures InStyle(m, root, p)
    {
      BegunFlight(g, net, root, n, m, MissionBroadcast(m, objective, required), p);
    }
    assert forall u :: JoinsOnce(m, root, f.net, [], u);
    assert Recorded(n.missions[m], root, required, Degree(g, root), 0);
  }

  lemma {:induction false} RunKeeps(hash: HashFn, g: Graph, m: string, root: NodeId, required: int, f: Flood, moves: seq<Move>, end: Flood)
    requires Undirected(g) && Sound(g, m, root, required, f) && Runs(hash, f, moves, m, end)
    ensures Sound(g, m, root, required, end) && f.order <= end.order
    decreases |moves|
  {
    hide Sound, Possible, After;
    if moves != [] {
      StepKeeps(hash, g, m, root, required, f, moves[0]);
      RunKeeps(hash, g, m, root, required, After(hash, f, moves[0], m), moves[1..], end);
    }
  }

  lemma {:induction false} RunIsSound(hash: HashFn, g: Graph, net: Net, root: NodeId, m: string, objective: string, required: int, moves: seq<Move>, end: Flood)
    requires Ready(g, net, root, m) && Runs(hash, Begin(net, root, m, objective, required), moves, m, end)
    ensures Sound(g, m, root, required, end)
  {
    hide Sound, Runs;
    BeginIsBegun(g, net, root, m, objective, required);
    BegunKeeps(g, net, root, StartMission(net.nodes[root], m, objective, required).0, m, objective, required);
    RunKeeps(hash, g, m, root, required, Begin(net, root, m, objective, required), moves, end);
  }

  // ----- the theorems -----

  lemma {:induction false} SentAtMost(g: Graph, root: NodeId, m: string, f: Flood)
    requires Undirected(g) && ConnectedFrom(g, root) && Spreading(g, m, f) && Counted(g, m, f) && f.order[0] == root
    ensures f.sent <= 2 * Edges(g, g.ids) - (|g.ids| - 1) && f.delivered <= 2 * Edges(g, g.ids) + f.statuses
    ensures (forall u | u in g.ids :: u in f.order) ==> f.sent == 2 * Edges(g, g.ids) - (|g.ids| - 1)
  {
    hide Those;
    var spare := (u: Node) => Degree(g, u) - 1;
    forall u | u in g.ids && u !in f.order
      ensures spare(u) >= 0
    {
      NoIsolatedNode(g, root, u);
    }
    SumPart(spare, f.order, g.ids);
    SumMinusOnes(g, g.ids);
    Handshaking(g);
    SomeAreFew(f.order, g.ids);
  }

  lemma {:induction false} SumMinusOnes(g: Graph, s: seq<Node>)
    ensures Sum((u: Node) => Degree(g, u) - 1, s) == Sum((u: Node) => Degree(g, u), s) - |s|
  {
    if s != [] {
      SumMinusOnes(g, s[..|s| - 1]);
    }
  }

  lemma SomeAreFew(part: seq<Node>, all: seq<Node>)
    requires Distinct(part) && Distinct(all) && forall u | u in part :: u in all
    ensures |part| <= |all|
  {
    var one := (u: Node) => 1;
    SumPart(one, part, all);
    SumOfOnes(one, part);
    SumOfOnes(one, all);
  }

  /** Whoever is listed at the broadcaster is a peer that heard from it first. */
  lemma ListedIsChild(g: Graph, m: string, root: NodeId, required: int, f: Flood, i: nat)
    requires Undirected(g) && Sound(g, m, root, required, f) && i < |f.net.nodes[root].missions[m].joined|
    ensures var u := f.net.nodes[root].missions[m].joined[i].node;
            Child(m, f.net, root, u) && u in g.peers && root in g.peers && u in g.peers[root]
  {
    hide Those, Counted, InStyle, ToldOrTelling, ComesFromKnower, Recorded;
    var joined := f.net.nodes[root].missions[m].joined;
    var u := joined[i].node;
    assert Listed(joined, u) && JoinsOnce(m, root, f.net, joined, u);
    var j :| 0 <= j < |f.order| && f.order[j] == u;
    assert HeardFromEarlier(g, m, f, j);
  }

  lemma JoinedAreFew(g: Graph, m: string, root: NodeId, required: int, f: Flood)
    requires Undirected(g) && Sound(g, m, root, required, f)
    ensures |f.net.nodes[root].missions[m].joined| <= Degree(g, root)
  {
    hide Spreading, Counted, JoinsOnce, InStyle;
    var joined := f.net.nodes[root].missions[m].joined;
    var names := seq(|joined|, i requires 0 <= i < |joined| => joined[i].node);
    forall u | u in names
      ensures root in g.peers && u in g.peers[root]
    {
      var i :| 0 <= i < |names| && names[i] == u;
      ListedIsChild(g, m, root, required, f, i);
    }
    if joined != [] {
      assert names[0] in names;
      SomeAreFew(names, g.peers[root]);
    }
  }

  /** From any reachable state: at most 2E - (n - 1) broadcasts of the mission are ever sent, and at most
      2E messages about it are delivered, besides the status messages: one to each peer of the broadcaster for each
      node that joined there, of which there are no more than it has peers. */
  lemma {:induction false} FloodIsBounded(hash: HashFn, g: Graph, net: Net, root: NodeId, m: string, objective: string, required: int,
          moves: seq<Move>, end: Flood)
    requires Ready(g, net, root, m) && ConnectedFrom(g, root)
    requires Runs(hash, Begin(net, root, m, objective, required), moves, m, end)
    ensures end.sent <= 2 * Edges(g, g.ids) - (|g.ids| - 1)
    ensures root in end.net.nodes && Knows(end.net.nodes[root], m)
    ensures var joined := end.net.nodes[root].missions[m].joined;
            end.delivered <= 2 * Edges(g, g.ids) + Degree(g, root) * |joined| && |joined| <= Degree(g, root)
  {
    hide Sound, Runs;
    RunIsSound(hash, g, net, root, m, objective, required, moves, end);
    SoundIsFew(g, m, root, required, end);
  }

  lemma StatusesAreFew(g: Graph, m: string, root: NodeId, required: int, f: Flood)
    requires Recruiting(g, m, root, required, f)
    ensures f.order != [] && f.order[0] == root && root in f.net.nodes && Knows(f.net.nodes[root], m)
    ensures f.statuses <= Degree(g, root) * |f.net.nodes[root].missions[m].joined|
  {
    hide Degree, FairlyJoined, Staffed, JoinsOnce, InStyle;
  }

  lemma {:induction false} SoundIsFew(g: Graph, m: string, root: NodeId, required: int, f: Flood)
    requires Undirected(g) && ConnectedFrom(g, root) && Sound(g, m, root, required, f)
    ensures f.sent <= 2 * Edges(g, g.ids) - (|g.ids| - 1) && root in f.net.nodes && Knows(f.net.nodes[root], m)
    ensures var joined := f.net.nodes[root].missions[m].joined;
            f.delivered <= 2 * Edges(g, g.ids) + Degree(g, root) * |joined| && |joined| <= Degree(g, root)
  {
    hide Counted, Edges, Degree, ConnectedFrom, Recruiting, Spreading;
    StatusesAreFew(g, m, root, required, f);
    SentAtMost(g, root, m, f);
    JoinedAreFew(g, m, root, required, f);
  }

  lemma {:induction false} FewAgents(joined: seq<Joined>)
    requires FairlyJoined(joined)
    ensures AgentsOf(joined) <= AGENTS_PER_MISSION * |joined|
  {
    if joined != [] {
      FewAgents(joined[1..]);
    }
  }

  /** At every moment the broadcaster has the mission as active exactly if somebody joined and the agents that
      joined are enough. Only peers that heard from it first ever join there, with at most two agents each: a mission
      that needs more than two for each peer never starts, however many agents are free further away. */
  lemma {:induction false} StartsExactlyWhenStaffed(hash: HashFn, g: Graph, net: Net, root: NodeId, m: string, objective: string,
          required: int, moves: seq<Move>, end: Flood)
    requires Ready(g, net, root, m) && Runs(hash, Begin(net, root, m, objective, required), moves, m, end)
    ensures root in end.net.nodes && Knows(end.net.nodes[root], m)
    ensures var mission := end.net.nodes[root].missions[m];
            && (mission.status == "active" <==> mission.joined != [] && AgentsOf(mission.joined) >= required)
            && (forall i | 0 <= i < |mission.joined| :: Child(m, end.net, root, mission.joined[i].node) && mission.joined[i].agents <= 2)
            && AgentsOf(mission.joined) <= 2 * Degree(g, root)
            && (required > 2 * Degree(g, root) ==> mission.status == "recruiting" && end.statuses == 0)
  {
    hide Those, Runs, Counted, Spreading;
    RunIsSound(hash, g, net, root, m, objective, required, moves, end);
    JoinedAreFew(g, m, root, required, end);
    var mission := end.net.nodes[root].missions[m];
    assert mission.required == required;
    FewAgents(mission.joined);
    forall i | 0 <= i < |mission.joined|
      ensures Child(m, end.net, root, mission.joined[i].node)
    {
      ListedIsChild(g, m, root, required, end, i);
    }
  }

  const DEFAULT_REQUIRED := 4

  /** Three nodes in a line. */
  const LINE := Graph(["a", "b", "c"], map["a" := ["b"], "b" := ["a", "c"], "c" := ["b"]])

  /** Broadcast from the end of the line, a mission that needs the default of four agents never starts, whoever is
      free at the other end. */
  lemma {:induction false} LineNeverStarts(hash: HashFn, net: Net, m: string, objective: string, moves: seq<Move>, end: Flood)
    requires Ready(LINE, net, "a", m) && Runs(hash, Begin(net, "a", m, objective, DEFAULT_REQUIRED), moves, m, end)
    ensures "a" in end.net.nodes && Knows(end.net.nodes["a"], m)
    ensures end.net.nodes["a"].missions[m].status == "recruiting" && end.statuses == 0
  {
    hide Ready, Runs;
    StartsExactlyWhenStaffed(hash, LINE, net, "a", m, objective, DEFAULT_REQUIRED, moves, end);
    assert Degree(LINE, "a") == 1;
  }

  /** When nothing about the mission is under way any more, every node knows it, and exactly
      2E - (n - 1) broadcasts were sent. */
  lemma {:induction false} FloodReachesAll(hash: HashFn, g: Graph, net: Net, root: NodeId, m: string, objective: string, required: int,
          moves: seq<Move>, end: Flood)
    requires Ready(g, net, root, m) && ConnectedFrom(g, root)
    requires Runs(hash, Begin(net, root, m, objective, required), moves, m, end) && forall p | p in end.net.flight :: !About(p, m)
    ensures forall u | u in g.ids :: u in end.net.nodes && Knows(end.net.nodes[u], m)
    ensures end.sent == 2 * Edges(g, g.ids) - (|g.ids| - 1)
  {
    hide Those, Runs, Counted;
    RunIsSound(hash, g, net, root, m, objective, required, moves, end);
    QuietMeansAll(g, root, m, end);
    SentAtMost(g, root, m, end);
  }

  lemma QuietMeansAll(g: Graph, root: NodeId, m: string, f: Flood)
    requires ConnectedFrom(g, root) && Spreading(g, m, f) && f.order[0] == root
    requires forall p | p in f.net.flight :: !About(p, m)
    ensures forall u | u in g.ids :: u in f.order
  {
    var known := SetOf(f.order);
    forall u, v | u in known && u in g.peers && v in g.peers[u]
      ensures v in known
    {
      assert ToldOrTelling(m, f, u, v);
    }
    assert root in known && Closed(g, known);
  }

  /** Follow the recorded senders `i` times. */
  function Up(f: Flood, m: string, u: NodeId, i: nat): NodeId
    decreases i
  {
    if i == 0 || u !in f.net.nodes || m !in f.net.nodes[u].missions then u
    else Up(f, m, f.net.nodes[u].missions[m].originator, i - 1)
  }

  lemma {:induction false} UpReachesFirst(g: Graph, m: string, f: Flood, j: nat)
    requires Spreading(g, m, f) && j < |f.order|
    ensures Up(f, m, f.order[j], j) == f.order[0]
    decreases j
  {
    if j > 0 {
      assert HeardFromEarlier(g, m, f, j);
      var parent := f.net.nodes[f.order[j]].missions[m].originator;
      var i :| 0 <= i < j && f.order[i] == parent;
      UpReachesFirst(g, m, f, i);
      UpFromFirst(g, m, f, j - 1 - i);
      UpAdds(f, m, parent, i, j - 1 - i);
    }
  }

  lemma {:induction false} UpFromFirst(g: Graph, m: string, f: Flood, i: nat)
    requires Spreading(g, m, f)
    ensures Up(f, m, f.order[0], i) == f.order[0]
  {
    assert HeardFromEarlier(g, m, f, 0);
    if i > 0 {
      UpFromFirst(g, m, f, i - 1);
    }
  }

  lemma {:induction false} UpAdds(f: Flood, m: string, u: NodeId, i: nat, j: nat)
    ensures Up(f, m, u, i + j) == Up(f, m, Up(f, m, u, i), j)
    decreases i
  {
    if i > 0 && u in f.net.nodes && m in f.net.nodes[u].missions {
      UpAdds(f, m, f.net.nodes[u].missions[m].originator, i - 1, j);
    }
  }

  /** At every moment the recorded senders form a tree: the root names itself, every other node that
      knows names a peer, and following the names leads to the root in fewer than n steps. */
  lemma {:induction false} SendersFormTree(hash: HashFn, g: Graph, net: Net, root: NodeId, m: string, objective: string, required: int,
          moves: seq<Move>, end: Flood, u: NodeId)
    requires Ready(g, net, root, m) && Runs(hash, Begin(net, root, m, objective, required), moves, m, end)
    requires u in end.net.nodes && Knows(end.net.nodes[u], m)
    ensures var parent := end.net.nodes[u].missions[m].originator;
            if u == root then parent == root
            else parent != u && parent in g.peers && u in g.peers[parent] && parent in end.net.nodes && Knows(end.net.nodes[parent], m)
    ensures exists i :: 0 <= i < |g.ids| && Up(end, m, u, i) == root
  {
    hide Those, Runs, Counted;
    RunIsSound(hash, g, net, root, m, objective, required, moves, end);
    var j :| 0 <= j < |end.order| && end.order[j] == u;
    assert HeardFromEarlier(g, m, end, j);
    UpReachesFirst(g, m, end, j);
    SomeAreFew(end.order, g.ids);
    assert j < |g.ids| && Up(end, m, u, j) == root;
    assert u != root ==> end.net.nodes[u].missions[m].originator in end.order;
  }

  /** How many of the deliveries made node `u` send the mission on. */
  ghost function Forwards(hash: HashFn, f: Flood, moves: seq<Move>, m: string, u: NodeId, end: Flood): nat
    requires Runs(hash, f, moves, m, end)
    decreases |moves|
  {
    if moves == [] then 0
    else (if ForwardsAt(hash, f, moves[0], m, u) then 1 else 0) + Forwards(hash, After(hash, f, moves[0], m), moves[1..], m, u, end)
  }

  ghost predicate ForwardsAt(hash: HashFn, f: Flood, move: Move, m: string, u: NodeId)
    requires Possible(f, move, m)
  {
    move.Deliver? && f.net.flight[move.k].dst == u && Count(NewPackets(hash, f.net, move.k), m, Call) > 0
  }

  /** Each node forwards the mission at most once, and the broadcaster never. */
  lemma {:induction false} ForwardsOnce(hash: HashFn, g: Graph, net: Net, root: NodeId, m: string, objective: string, required: int,
          moves: seq<Move>, end: Flood, u: NodeId)
    requires Ready(g, net, root, m) && Runs(hash, Begin(net, root, m, objective, required), moves, m, end)
    ensures Forwards(hash, Begin(net, root, m, objective, required), moves, m, u, end) <= if u == root then 0 else 1
  {
    hide Sound, Runs, Forwards;
    var f := Begin(net, root, m, objective, required);
    BeginIsBegun(g, net, root, m, objective, required);
    BegunKeeps(g, net, root, StartMission(net.nodes[root], m, objective, required).0, m, objective, required);
    KnowersNeverForward(hash, g, m, root, required, f, moves, u, end);
    assert root in f.order;
  }

  /** From any sound state: a node that knows the mission never sends it on again. */
  lemma {:induction false} KnowersNeverForward(hash: HashFn, g: Graph, m: string, root: NodeId, required: int, f: Flood, moves: seq<Move>,
          u: NodeId, end: Flood)
    requires Undirected(g) && Sound(g, m, root, required, f) && Runs(hash, f, moves, m, end)
    ensures Forwards(hash, f, moves, m, u, end) <= if u in f.order then 0 else 1
    decreases |moves|
  {
    hide Sound, Possible, After, ForwardsAt;
    if moves != [] {
      StepKeeps(hash, g, m, root, required, f, moves[0]);
      KnowersNeverForward(hash, g, m, root, required, After(hash, f, moves[0], m), moves[1..], u, end);
      if ForwardsAt(hash, f, moves[0], m, u) {
        OnlyLearnersForward(hash, g, m, root, required, f, moves[0], u);
      }
    }
  }

  lemma NoNewsIsSent(hash: HashFn, g: Graph, m: string, root: NodeId, required: int, f: Flood, k: nat)
    requires Undirected(g) && Sound(g, m, root, required, f) && k < |f.net.flight|
    requires !Carries(f.net.flight[k], m) || f.net.flight[k].dst in f.order
    ensures Count(NewPackets(hash, f.net, k), m, Call) == 0
  {
    hide Count, Handle, Counted, HeardFromEarlier, ToldOrTelling, NotesAt, JoinsOnce, Recorded, SameForMission;
    var p := f.net.flight[k];
    assert p in f.net.flight;
    if !About(p, m) {
      OtherDelivery(hash, m, f, k);
    } else {
      var n, told := OldNews(hash, g, m, root, f, k);
    }
  }

  lemma OnlyLearnersForward(hash: HashFn, g: Graph, m: string, root: NodeId, required: int, f: Flood, move: Move, u: NodeId)
    requires Undirected(g) && Sound(g, m, root, required, f) && Possible(f, move, m) && ForwardsAt(hash, f, move, m, u)
    ensures u !in f.order && u in After(hash, f, move, m).order
  {
    hide Count, Handle, Counted, HeardFromEarlier, ToldOrTelling, Learns, JoinsOnce, Recorded, SameForMission;
    if !Carries(f.net.flight[move.k], m) || u in f.order {
      NoNewsIsSent(hash, g, m, root, required, f, move.k);
    } else {
      var n, told, more := NewsArrives(hash, g, m, f, move.k);
    }
  }
}
