/** One node of the mesh: what each message does to the node and which messages it sends.
    The functions give the behaviour on values; `SaigeNode` has the node as the program keeps it,
    each method proved to compute its function. */
module MeshNode {
  import opened Wrappers
  import opened ArtifactStore
  import RateLimit

  type NodeId = string

  const CATALOG_SYNC_BATCH := 50
  const MAX_PEERS := 50
  const AGENTS_PER_MISSION := 2

  datatype Entry = Entry(hash: Hash, size: nat, filename: string, project: string, createdAt: real)

  /** `ArtifactResponse.meta` is `None` when it is missing, empty or not usable as metadata:
      in each case the response is consumed and nothing is stored. */
  datatype Message =
    | Handshake(token: string)
    | HandshakeAck(token: string)
    | PeerList(peers: seq<NodeId>)
    | CatalogSync(entries: seq<Entry>)
    | CatalogRequest
    | ArtifactRequest(hash: Hash)
    | ArtifactResponse(hash: Hash, content: Bytes, meta: Option<MetaData>)
    | ArtifactAnnounce(hash: Hash)
    | MissionBroadcast(mission: string, objective: string, required: int)
    | MissionJoin(mission: string, node: NodeId, agents: nat)
    | MissionResult(mission: string, node: NodeId, result: string)
    | MissionStatus(mission: string, status: Option<string>)
    | Other

  /** A message goes back over the socket it answers, or to a named peer. */
  datatype Out = Reply(msg: Message) | ToPeer(peer: NodeId, msg: Message)

  datatype Joined = Joined(node: NodeId, agents: nat)

  /** `originator` is the node the mission was heard from (the node itself if it started it);
      `joined` lists the volunteers in the order they joined. */
  datatype Mission = Mission(objective: string, originator: NodeId, required: int, status: string, joined: seq<Joined>,
    results: map<NodeId, string>)

  datatype NodeState = NodeState(
    id: NodeId,
    token: string,
    agents: nat,
    store: StoreState,
    pending: set<Hash>,
    rates: RateLimit.Rates,
    auth: set<NodeId>,
    peers: seq<NodeId>,
    missions: map<string, Mission>)

  // ----- catalog gossip -----

  function Summary(s: StoreState): seq<Entry>
    requires forall h | h in s.order :: h in s.catalog
  {
    seq(|s.order|, i requires 0 <= i < |s.order| =>
      var m := s.catalog[s.order[i]];
      Entry(s.order[i], m.size, m.filename, m.project, m.createdAt))
  }

  function Batches(catalog: seq<Entry>): seq<Message> {
    if |catalog| == 0 then []
    else if |catalog| <= CATALOG_SYNC_BATCH then [CatalogSync(catalog)]
    else [CatalogSync(catalog[..CATALOG_SYNC_BATCH])] + Batches(catalog[CATALOG_SYNC_BATCH..])
  }

  function SendCatalog(s: StoreState): seq<Message> {
    if forall h | h in s.order :: h in s.catalog then Batches(Summary(s)) else []
  }

  /** Hashes announced that are not in the catalog, in order. */
  function Missing(have: set<Hash>, entries: seq<Entry>): seq<Hash> {
    if entries == [] then []
    else if entries[0].hash != "" && entries[0].hash !in have then [entries[0].hash] + Missing(have, entries[1..])
    else Missing(have, entries[1..])
  }

  function Wanted(have: set<Hash>, entries: seq<Entry>): seq<Hash> {
    var missing := Missing(have, entries);
    if |missing| <= CATALOG_SYNC_BATCH then missing else missing[..CATALOG_SYNC_BATCH]
  }

  function SetOf<T>(s: seq<T>): set<T> {
    set x | x in s
  }

  function Replies(msgs: seq<Message>): seq<Out> {
    seq(|msgs|, i requires 0 <= i < |msgs| => Reply(msgs[i]))
  }

  function Requests(hashes: seq<Hash>): seq<Out> {
    seq(|hashes|, i requires 0 <= i < |hashes| => Reply(ArtifactRequest(hashes[i])))
  }

  function OnCatalogSync(n: NodeState, entries: seq<Entry>): (NodeState, seq<Out>) {
    var wanted := Wanted(n.store.catalog.Keys, entries);
    (n.(pending := n.pending + SetOf(wanted)), Requests(wanted))
  }

  function OnArtifactRequest(n: NodeState, h: Hash): (NodeState, seq<Out>) {
    var content := Retrieve(n.store, h);
    if content.Some? && content.value != [] && h in n.store.catalog
    then (n, [Reply(ArtifactResponse(h, content.value, Some(n.store.catalog[h])))])
    else (n, [])
  }

  /** Only what was asked for is looked at, and asking counts for one answer. */
  function OnArtifactResponse(hash: HashFn, n: NodeState, h: Hash, content: Bytes,
          meta: Option<MetaData>): (NodeState, seq<Out>) {
    if h !in n.pending then (n, [])
    else
      var n' := n.(pending := n.pending - {h});
      if content != [] && meta.Some? && hash(content) == h
      then (n'.(store := Put(hash, n.store, content, meta.value)), [])
      else (n', [])
  }

  function OnArtifactAnnounce(n: NodeState, h: Hash): (NodeState, seq<Out>) {
    if h != "" && !Has(n.store, h)
    then (n.(pending := n.pending + {h}), [Reply(ArtifactRequest(h))])
    else (n, [])
  }

  // ----- peers -----

  /** A dictionary assignment: an existing key keeps its place. */
  function AddPeer(peers: seq<NodeId>, p: NodeId): seq<NodeId> {
    if p in peers then peers else peers + [p]
  }

  function Without(peers: seq<NodeId>, p: NodeId): seq<NodeId> {
    if peers == [] then []
    else if peers[0] == p then Without(peers[1..], p)
    else [peers[0]] + Without(peers[1..], p)
  }

  function Broadcast(peers: seq<NodeId>, msg: Message): seq<Out> {
    seq(|peers|, i requires 0 <= i < |peers| => ToPeer(peers[i], msg))
  }

  function OnHandshake(n: NodeState, sender: NodeId, token: string): (NodeState, seq<Out>) {
    if token == "" || token != n.token then (n, [])
    else
      var n' := n.(auth := n.auth + {sender});
      if |n.peers| >= MAX_PEERS then (n', [])
      else
        var others := Without(AddPeer(n.peers, sender), sender);
        (n'.(peers := AddPeer(n.peers, sender)),
         Replies([HandshakeAck(n.token)] + (if others != [] then [PeerList(others)] else []) + SendCatalog(n.store)))
  }

  function OnHandshakeAck(n: NodeState, sender: NodeId, token: string): (NodeState, seq<Out>) {
    if token == "" || token != n.token then (n, [])
    else (n.(auth := n.auth + {sender}, peers := AddPeer(n.peers, sender)), [])
  }

  // ----- missions -----

  function Volunteers(n: NodeState): nat {
    if n.agents <= AGENTS_PER_MISSION then n.agents else AGENTS_PER_MISSION
  }

  function OnMissionBroadcast(n: NodeState, sender: NodeId, id: string, objective: string, required: int): (NodeState,
          seq<Out>) {
    if id in n.missions then (n, [])
    else
      var agents := Volunteers(n);
      var mission := Mission(objective, sender, required, "recruiting", if agents > 0 then [Joined(n.id, agents)] else [], map[]);
      (n.(missions := n.missions[id := mission]),
       (if agents > 0 then [Reply(MissionJoin(id, n.id, agents))] else [])
       + Broadcast(Without(n.peers, sender), MissionBroadcast(id, objective, required)))
  }

  /** Starting a mission: the node is its own originator and tells every peer. */
  function StartMission(n: NodeState, id: string, objective: string, required: int): (NodeState, seq<Out>) {
    (n.(missions := n.missions[id := Mission(objective, n.id, required, "recruiting", [], map[])]),
     Broadcast(n.peers, MissionBroadcast(id, objective, required)))
  }

  /** A dictionary assignment: a node that joined before keeps its place. */
  function Enlist(joined: seq<Joined>, node: NodeId, agents: nat): seq<Joined> {
    if joined == [] then [Joined(node, agents)]
    else if joined[0].node == node then [Joined(node, agents)] + joined[1..]
    else [joined[0]] + Enlist(joined[1..], node, agents)
  }

  function AgentsOf(joined: seq<Joined>): nat {
    if joined == [] then 0 else joined[0].agents + AgentsOf(joined[1..])
  }

  /** The broadcaster starts the mission once enough agents joined, and says so again for every
      node that joins later. */
  function OnMissionJoin(n: NodeState, id: string, node: NodeId, agents: nat): (NodeState, seq<Out>) {
    if id !in n.missions then (n, [])
    else
      var was := n.missions[id];
      var mission := was.(joined := Enlist(was.joined, node, agents));
      if mission.originator == n.id && AgentsOf(mission.joined) >= mission.required
      then (n.(missions := n.missions[id := mission.(status := "active")]), Broadcast(n.peers, MissionStatus(id, Some("active"))))
      else (n.(missions := n.missions[id := mission]), [])
  }

  function OnMissionResult(n: NodeState, id: string, node: NodeId, result: string): (NodeState, seq<Out>) {
    if id !in n.missions then (n, [])
    else
      var was := n.missions[id];
      var mission := was.(results := was.results[node := result]);
      (n.(missions := n.missions[id := if |mission.results| >= |mission.joined| then mission.(status := "completed") else mission]), [])
  }

  /** A message without a status leaves the mission's as it is. */
  function OnMissionStatus(n: NodeState, id: string, status: Option<string>): (NodeState, seq<Out>) {
    if id !in n.missions || status.None? then (n, [])
    else (n.(missions := n.missions[id := n.missions[id].(status := status.value)]), [])
  }

  // ----- the dispatcher -----

  /** The handler alone, once the message was let through. */
  function Handle(hash: HashFn, n: NodeState, sender: NodeId, msg: Message): (NodeState, seq<Out>) {
    match msg
    case Handshake(token) => OnHandshake(n, sender, token)
    case HandshakeAck(token) => OnHandshakeAck(n, sender, token)
    case CatalogSync(entries) => OnCatalogSync(n, entries)
    case CatalogRequest => (n, Replies(SendCatalog(n.store)))
    case ArtifactRequest(h) => OnArtifactRequest(n, h)
    case ArtifactResponse(h, content, meta) => OnArtifactResponse(hash, n, h, content, meta)
    case ArtifactAnnounce(h) => OnArtifactAnnounce(n, h)
    case MissionBroadcast(id, objective, required) => OnMissionBroadcast(n, sender, id, objective, required)
    case MissionJoin(id, node, agents) => OnMissionJoin(n, id, node, agents)
    case MissionResult(id, node, result) => OnMissionResult(n, id, node, result)
    case MissionStatus(id, status) => OnMissionStatus(n, id, status)
    case _ => (n, [])
  }

  /** The whole path of an incoming message: rate limit, then authentication, then handler.
      Handshakes pass both gates; a message that passes the limit is on record even if
      its sender turns out not to be authenticated. */
  function Receive(hash: HashFn, n: NodeState, sender: NodeId, msg: Message, now: real): (NodeState, seq<Out>) {
    if msg.Handshake? || msg.HandshakeAck? then Handle(hash, n, sender, msg)
    else
      var (rates, passed) := RateLimit.Check(n.rates, sender, now);
      var n' := n.(rates := rates);
      if !passed || sender !in n.auth then (n', []) else Handle(hash, n', sender, msg)
  }

  /** Publishing an artifact of one's own. */
  function Publish(hash: HashFn, n: NodeState, content: Bytes, meta: MetaData): (NodeState, seq<Out>) {
    (n.(store := Put(hash, n.store, content, meta)),
     Broadcast(n.peers, ArtifactAnnounce(hash(content))))
  }

  // ----- facts about the handlers -----

  lemma {:induction false} MissingIsExact(have: set<Hash>, entries: seq<Entry>, h: Hash)
    ensures h in Missing(have, entries) <==> h != "" && h !in have && exists i :: 0 <= i < |entries| && entries[i].hash == h
    ensures |Missing(have, entries)| <= |entries|
  {
    if entries != [] {
      MissingIsExact(have, entries[1..], h);
      if i :| 0 <= i < |entries| && entries[i].hash == h {
        assert i > 0 ==> entries[1..][i - 1].hash == h;
      }
    }
  }

  /** A batch cut by `SendCatalog` never loses a request to the slice: of a message with at most
      50 entries every hash the node lacks is requested, and nothing else is. */
  lemma BatchIsRequestedWhole(n: NodeState, entries: seq<Entry>, h: Hash)
    requires |entries| <= 50
    ensures var (n', outs) := OnCatalogSync(n, entries);
            && (Reply(ArtifactRequest(h)) in outs <==> h != "" && h !in n.store.catalog && exists i :: 0 <= i < |entries| && entries[i].hash == h)
            && (Reply(ArtifactRequest(h)) in outs ==> h in n'.pending)
  {
    var have := n.store.catalog.Keys;
    MissingIsExact(have, entries, h);
    var wanted := Wanted(have, entries);
    var outs := Requests(wanted);
    if h in wanted {
      var i :| 0 <= i < |wanted| && wanted[i] == h;
      assert outs[i] == Reply(ArtifactRequest(h));
    }
    if Reply(ArtifactRequest(h)) in outs {
      var i :| 0 <= i < |outs| && outs[i] == Reply(ArtifactRequest(h));
      assert wanted[i] == h;
    }
  }

  /** The missing hashes are those of the entries, in order, that are not empty and not there. */
  lemma {:induction false} MissingGrows(have: set<Hash>, entries: seq<Entry>, e: Entry)
    ensures Missing(have, []) == []
    ensures Missing(have, entries + [e]) == Missing(have, entries) + if e.hash == "" || e.hash in have then [] else [e.hash]
  {
    if entries == [] {
      assert [] + [e] == [e] && [e][1..] == [];
    } else {
      MissingGrows(have, entries[1..], e);
      assert (entries + [e])[0] == entries[0] && (entries + [e])[1..] == entries[1..] + [e];
    }
  }

  /** Of a longer message the first 50 are requested, in order, and become pending. */
  lemma {:induction false} RequestedExactly(n: NodeState, entries: seq<Entry>)
    ensures var (n', outs) := OnCatalogSync(n, entries);
            var missing := Missing(n.store.catalog.Keys, entries);
            && |outs| == (if |missing| < 50 then |missing| else 50)
            && (forall i | 0 <= i < |outs| :: outs[i] == Reply(ArtifactRequest(missing[i])))
            && n' == n.(pending := n'.pending)
            && forall h :: h in n'.pending <==> h in n.pending || exists i :: 0 <= i < |outs| && missing[i] == h
  {
    hide Missing;
  }

  ghost predicate Announces(msgs: seq<Message>, h: Hash) {
    exists k :: 0 <= k < |msgs| && msgs[k].CatalogSync? && exists i :: 0 <= i < |msgs[k].entries| && msgs[k].entries[i].hash == h
  }

  lemma {:induction false} BatchesCover(catalog: seq<Entry>, i: nat)
    requires i < |catalog|
    ensures Announces(Batches(catalog), catalog[i].hash)
  {
    var msgs := Batches(catalog);
    if |catalog| <= CATALOG_SYNC_BATCH {
      assert msgs[0].entries[i].hash == catalog[i].hash;
    } else if i < CATALOG_SYNC_BATCH {
      assert msgs[0].entries[i].hash == catalog[i].hash;
    } else {
      var rest := catalog[CATALOG_SYNC_BATCH..];
      BatchesCover(rest, i - CATALOG_SYNC_BATCH);
      var k :| 0 <= k < |Batches(rest)| && Batches(rest)[k].CatalogSync? && exists j :: 0 <= j < |Batches(rest)[k].entries| && Batches(rest)[k].entries[j].hash == rest[i - CATALOG_SYNC_BATCH].hash;
      assert msgs[k + 1] == Batches(rest)[k];
    }
  }

  lemma {:induction false} BatchesAreSmall(catalog: seq<Entry>)
    ensures forall k | 0 <= k < |Batches(catalog)| :: Batches(catalog)[k].CatalogSync? && |Batches(catalog)[k].entries| <= 50
  {
    if |catalog| > CATALOG_SYNC_BATCH {
      BatchesAreSmall(catalog[CATALOG_SYNC_BATCH..]);
    }
  }

  /** The catalog is cut at every fiftieth entry. */
  lemma {:induction false} BatchesExactly(catalog: seq<Entry>, k: nat)
    ensures |Batches(catalog)| == (|catalog| + 49) / 50
    ensures 50 * k < |catalog| ==>
              k < |Batches(catalog)|
              && Batches(catalog)[k] == CatalogSync(catalog[50 * k..if 50 * k + 50 <= |catalog| then 50 * k + 50 else |catalog|])
  {
    if 50 * k < |catalog| <= 50 {
      assert catalog[0..|catalog|] == catalog;
    } else if |catalog| > 50 {
      var rest := catalog[50..];
      BatchesExactly(rest, if k > 0 then k - 1 else 0);
      if 0 < k && 50 * k < |catalog| {
        var last := if 50 * k + 50 <= |catalog| then 50 * k + 50 else |catalog|;
        assert rest[50 * (k - 1)..last - 50] == catalog[50 * k..last];
      }
    }
  }

  /** Every catalogued hash is announced, in messages of at most 50 entries. */
  lemma CatalogIsAnnounced(hash: HashFn, s: StoreState, h: Hash)
    requires Intact(hash, s) && h in s.catalog
    ensures Announces(SendCatalog(s), h)
  {
    var i :| 0 <= i < |s.order| && s.order[i] == h;
    assert Summary(s)[i].hash == h;
    BatchesCover(Summary(s), i);
  }

  lemma SendCatalogIsSmall(s: StoreState)
    ensures forall k | 0 <= k < |SendCatalog(s)| :: SendCatalog(s)[k].CatalogSync? && |SendCatalog(s)[k].entries| <= 50
  {
    if forall h | h in s.order :: h in s.catalog {
      BatchesAreSmall(Summary(s));
    }
  }
}
