/** The node object: fields updated in place by the handlers, each proved to compute the
    function of the same name in `MeshNode`. Messages sent are returned in order. */
module SaigeNode {
  import opened Wrappers
  import opened ArtifactStore
  import opened MeshNode
  import RateLimit

  /** The broadcast loop, from a given place in the peer table on. */
  function Telling(peers: seq<NodeId>, exclude: Option<NodeId>, msg: Message): seq<Out> {
    if peers == [] then []
    else if exclude == Some(peers[0]) then Telling(peers[1..], exclude, msg)
    else [ToPeer(peers[0], msg)] + Telling(peers[1..], exclude, msg)
  }

  lemma {:induction false} TellingNobody(exclude: Option<NodeId>, msg: Message)
    ensures Telling([], exclude, msg) == []
  {
  }

  lemma {:induction false} TellingStep(peers: seq<NodeId>, i: nat, exclude: Option<NodeId>, msg: Message)
    requires i < |peers|
    ensures exclude == Some(peers[i]) ==> Telling(peers[i..], exclude, msg) == Telling(peers[i + 1..], exclude, msg)
    ensures exclude != Some(peers[i]) ==> Telling(peers[i..], exclude, msg) == [ToPeer(peers[i], msg)] + Telling(peers[i + 1..], exclude, msg)
  {
  }

  lemma {:induction false} TellingIsBroadcast(peers: seq<NodeId>, exclude: Option<NodeId>, msg: Message)
    ensures Telling(peers, exclude, msg) == Broadcast(if exclude.Some? then Without(peers, exclude.value) else peers, msg)
  {
    if peers != [] {
      TellingIsBroadcast(peers[1..], exclude, msg);
    }
  }

  class SAIGENode {
    const nodeId: NodeId
    const authToken: string
    const store: ContentStore
    var agents: nat
    var pendingArtifactRequests: set<Hash>
    var peerMsgRates: RateLimit.Rates
    var authenticatedPeers: set<NodeId>
    var peers: seq<NodeId>
    var networkMissions: map<string, Mission>

    /** The invariant of every method: the store object is consistent and its artifacts are intact. */
    ghost predicate Valid()
      reads this, store, store.catalog.Values
    {
      store.Valid() && Intact(store.hash, store.Model)
    }

    ghost function View(): NodeState
      reads this, store
    {
      NodeState(nodeId, authToken, agents, store.Model, pendingArtifactRequests, peerMsgRates, authenticatedPeers, peers, networkMissions)
    }

    constructor (hash: HashFn, id: NodeId, token: string, agents: nat)
      ensures Valid() && fresh(store) && store.hash == hash
      ensures View() == NodeState(id, token, agents, EMPTY_STORE, {}, map[], {}, [], map[])
    {
      nodeId, authToken, this.agents := id, token, agents;
      store := new ContentStore(hash);
      pendingArtifactRequests, peerMsgRates, authenticatedPeers, peers, networkMissions := {}, map[], {}, [], map[];
    }

    method CheckRateLimit(sender: NodeId, now: real) returns (ok: bool)
      modifies this`peerMsgRates
      ensures (peerMsgRates, ok) == RateLimit.Check(old(peerMsgRates), sender, now)
    {
      if sender !in peerMsgRates {
        peerMsgRates := peerMsgRates[sender := []];
      }
      peerMsgRates := peerMsgRates[sender := RateLimit.Prune(peerMsgRates[sender], now)];
      ghost var recent := peerMsgRates[sender];
      assert peerMsgRates == old(peerMsgRates)[sender := recent];
      if |peerMsgRates[sender]| >= RateLimit.MSG_RATE_LIMIT {
        return false;
      }
      peerMsgRates := peerMsgRates[sender := peerMsgRates[sender] + [now]];
      assert peerMsgRates == old(peerMsgRates)[sender := recent + [now]];
      return true;
    }

    /** Cuts the catalog at every multiple of the batch size. */
    method SendCatalogTo() returns (msgs: seq<Message>)
      requires store.Valid() && forall h | h in store.order :: h in store.catalog
      ensures msgs == SendCatalog(store.Model)
    {
      ghost var catalog := Summary(store.Model);
      msgs := [];
      var i := 0;
      while i < |store.order|
        invariant 0 <= i
        invariant i <= |catalog| ==> msgs + Batches(catalog[i..]) == Batches(catalog)
        invariant i > |catalog| ==> msgs == Batches(catalog)
      {
        var upTo := if i + CATALOG_SYNC_BATCH <= |store.order| then i + CATALOG_SYNC_BATCH else |store.order|;
        var batch := seq(upTo - i, k requires 0 <= k < upTo - i && i + k < |store.order| && store.order[i + k] in store.catalog reads store, store.catalog.Values =>
          var m := store.catalog[store.order[i + k]];
          Entry(store.order[i + k], m.size, m.filename, m.project, m.createdAt));
        assert batch == catalog[i..upTo];
        assert |catalog[i..]| > CATALOG_SYNC_BATCH ==> catalog[i..][..CATALOG_SYNC_BATCH] == batch && catalog[i..][CATALOG_SYNC_BATCH..] == catalog[upTo..];
        assert |catalog[i..]| <= CATALOG_SYNC_BATCH ==> catalog[i..] == batch;
        msgs := msgs + [CatalogSync(batch)];
        i := i + CATALOG_SYNC_BATCH;
      }
    }

    /** Tells every connected peer, except possibly one. */
    method BroadcastTo(msg: Message, exclude: Option<NodeId>) returns (outs: seq<Out>)
      ensures outs == Broadcast(if exclude.Some? then Without(peers, exclude.value) else peers, msg)
    {
      hide Without, Telling, Broadcast;
      outs := [];
      var i := 0;
      while i < |peers|
        invariant 0 <= i <= |peers|
        invariant outs + Telling(peers[i..], exclude, msg) == Telling(peers, exclude, msg)
      {
        TellingStep(peers, i, exclude, msg);
        if exclude != Some(peers[i]) {
          outs := outs + [ToPeer(peers[i], msg)];
        }
        i := i + 1;
      }
      assert peers[i..] == [];
      TellingNobody(exclude, msg);
      TellingIsBroadcast(peers, exclude, msg);
    }

    method CatalogSyncReceived(entries: seq<Entry>) returns (outs: seq<Out>)
      requires Valid()
      modifies this`pendingArtifactRequests
      ensures Valid() && (View(), outs) == OnCatalogSync(old(View()), entries)
    {
      var have := store.catalog.Keys;
      var missing: seq<Hash> := [];
      var i := 0;
      while i < |entries|
        invariant 0 <= i <= |entries|
        invariant missing + Missing(have, entries[i..]) == Missing(have, entries)
      {
        if entries[i].hash != "" && entries[i].hash !in have {
          missing := missing + [entries[i].hash];
        }
        i := i + 1;
      }
      assert missing == Missing(have, entries);
      var batch := if |missing| <= CATALOG_SYNC_BATCH then missing else missing[..CATALOG_SYNC_BATCH];
      outs := RequestEach(batch);
    }

    method RequestEach(batch: seq<Hash>) returns (outs: seq<Out>)
      modifies this`pendingArtifactRequests
      ensures pendingArtifactRequests == old(pendingArtifactRequests) + SetOf(batch)
      ensures outs == Requests(batch)
    {
      outs := [];
      var i := 0;
      while i < |batch|
        invariant 0 <= i <= |batch|
        invariant pendingArtifactRequests == old(pendingArtifactRequests) + SetOf(batch[..i])
        invariant outs == Requests(batch[..i])
      {
        assert batch[..i + 1] == batch[..i] + [batch[i]];
        pendingArtifactRequests := pendingArtifactRequests + {batch[i]};
        outs := outs + [Reply(ArtifactRequest(batch[i]))];
        i := i + 1;
      }
      assert batch[..i] == batch;
    }

    method ArtifactRequested(h: Hash) returns (outs: seq<Out>)
      requires Valid()
      ensures (View(), outs) == OnArtifactRequest(View(), h)
    {
      var content := store.RetrieveBytes(h);
      var meta := store.GetMeta(h);
      if content.Some? && content.value != [] && meta.Some? {
        return [Reply(ArtifactResponse(h, content.value, meta))];
      }
      return [];
    }

    method ArtifactReceived(h: Hash, content: Bytes, meta: Option<MetaData>) returns (outs: seq<Out>)
      requires Valid()
      modifies this`pendingArtifactRequests, store
      ensures Valid() && fresh(store.catalog.Values - old(store.catalog.Values))
      ensures (View(), outs) == OnArtifactResponse(store.hash, old(View()), h, content, meta)
    {
      hide Intact, Put, HexDigests;
      outs := [];
      if h !in pendingArtifactRequests {
        return;
      }
      pendingArtifactRequests := pendingArtifactRequests - {h};
      if content != [] && meta.Some? {
        if store.hash(content) != h {
          return;
        }
        PutKeepsIntact(store.hash, store.Model, content, meta.value);
        var _ := store.StoreNew(content, meta.value);
      }
    }

    method ArtifactAnnounced(h: Hash) returns (outs: seq<Out>)
      requires Valid()
      modifies this`pendingArtifactRequests
      ensures Valid() && (View(), outs) == OnArtifactAnnounce(old(View()), h)
    {
      outs := [];
      if h != "" && !(ValidHash(h) && h in store.files) {
        pendingArtifactRequests := pendingArtifactRequests + {h};
        outs := [Reply(ArtifactRequest(h))];
      }
    }

    method HandshakeReceived(sender: NodeId, token: string) returns (outs: seq<Out>)
      requires Valid()
      modifies this`authenticatedPeers, this`peers
      ensures Valid() && (View(), outs) == OnHandshake(old(View()), sender, token)
    {
      outs := [];
      if token == "" || token != authToken {
        return;
      }
      authenticatedPeers := authenticatedPeers + {sender};
      if |peers| >= MAX_PEERS {
        return;
      }
      peers := AddPeer(peers, sender);
      var msgs := [HandshakeAck(authToken)];
      var others := Without(peers, sender);
      if others != [] {
        msgs := msgs + [PeerList(others)];
      }
      assert msgs == [HandshakeAck(authToken)] + (if others != [] then [PeerList(others)] else []);
      var catalog := SendCatalogTo();
      outs := Replies(msgs + catalog);
    }

    method HandshakeAckReceived(sender: NodeId, token: string) returns (outs: seq<Out>)
      requires Valid()
      modifies this`authenticatedPeers, this`peers
      ensures Valid() && (View(), outs) == OnHandshakeAck(old(View()), sender, token)
    {
      outs := [];
      if token == "" || token != authToken {
        return;
      }
      authenticatedPeers := authenticatedPeers + {sender};
      peers := AddPeer(peers, sender);
    }

    method MissionReceived(sender: NodeId, id: string, objective: string, required: int) returns (outs: seq<Out>)
      requires Valid()
      modifies this`networkMissions
      ensures Valid() && (View(), outs) == OnMissionBroadcast(old(View()), sender, id, objective, required)
    {
      outs := [];
      if id in networkMissions {
        return;
      }
      var available := if agents <= AGENTS_PER_MISSION then agents else AGENTS_PER_MISSION;
      var mission := Mission(objective, sender, required, "recruiting", [], map[]);
      if available > 0 {
        outs := [Reply(MissionJoin(id, nodeId, available))];
        mission := mission.(joined := [Joined(nodeId, available)]);
      }
      networkMissions := networkMissions[id := mission];
      var forwarded := BroadcastTo(MissionBroadcast(id, objective, required), Some(sender));
      ghost var joining := if available > 0 then [Reply(MissionJoin(id, nodeId, available))] else [];
      assert outs == joining;
      outs := outs + forwarded;
    }

    method BroadcastMission(id: string, objective: string, required: int) returns (outs: seq<Out>)
      requires Valid()
      modifies this`networkMissions
      ensures Valid() && (View(), outs) == StartMission(old(View()), id, objective, required)
    {
      networkMissions := networkMissions[id := Mission(objective, nodeId, required, "recruiting", [], map[])];
      outs := BroadcastTo(MissionBroadcast(id, objective, required), None);
    }

    /** The broadcaster tells all peers whenever a join finds or makes the mission fully staffed. */
    method MissionJoined(id: string, node: NodeId, agents: nat) returns (outs: seq<Out>)
      requires Valid()
      modifies this`networkMissions
      ensures Valid() && (View(), outs) == OnMissionJoin(old(View()), id, node, agents)
    {
      outs := [];
      if id !in networkMissions {
        return;
      }
      var mission := networkMissions[id];
      mission := mission.(joined := Enlist(mission.joined, node, agents));
      var total := AgentsOf(mission.joined);
      if mission.originator == nodeId && total >= mission.required {
        mission := mission.(status := "active");
        outs := BroadcastTo(MissionStatus(id, Some("active")), None);
      }
      networkMissions := networkMissions[id := mission];
    }

    method MissionResultReceived(id: string, node: NodeId, result: string)
      requires Valid()
      modifies this`networkMissions
      ensures Valid() && (View(), []) == OnMissionResult(old(View()), id, node, result)
    {
      if id !in networkMissions {
        return;
      }
      var mission := networkMissions[id];
      mission := mission.(results := mission.results[node := result]);
      if |mission.results| >= |mission.joined| {
        mission := mission.(status := "completed");
      }
      networkMissions := networkMissions[id := mission];
    }

    method MissionStatusReceived(id: string, status: Option<string>)
      requires Valid()
      modifies this`networkMissions
      ensures Valid() && (View(), []) == OnMissionStatus(old(View()), id, status)
    {
      if id in networkMissions && status.Some? {
        networkMissions := networkMissions[id := networkMissions[id].(status := status.value)];
      }
    }

    method PublishArtifact(content: Bytes, meta: MetaData) returns (outs: seq<Out>)
      requires Valid()
      modifies store
      ensures Valid() && fresh(store.catalog.Values - old(store.catalog.Values))
      ensures (View(), outs) == Publish(store.hash, old(View()), content, meta)
    {
      PutKeepsIntact(store.hash, store.Model, content, meta);
      var h := store.StoreNew(content, meta);
      outs := BroadcastTo(ArtifactAnnounce(h), None);
    }

    method HandleMessage(sender: NodeId, msg: Message, now: real) returns (outs: seq<Out>)
      requires Valid()
      modifies this, store
      ensures Valid() && fresh(store.catalog.Values - old(store.catalog.Values))
      ensures (View(), outs) == Receive(store.hash, old(View()), sender, msg, now)
    {
      hide Handle, RateLimit.Check, Intact;
      outs := [];
      if !msg.Handshake? && !msg.HandshakeAck? {
        var passed := CheckRateLimit(sender, now);
        if !passed || sender !in authenticatedPeers {
          return;
        }
      }
      outs := Route(sender, msg);
    }

    method Route(sender: NodeId, msg: Message) returns (outs: seq<Out>)
      requires Valid()
      modifies this, store
      ensures Valid() && fresh(store.catalog.Values - old(store.catalog.Values))
      ensures (View(), outs) == Handle(store.hash, old(View()), sender, msg)
    {
      if msg.ArtifactResponse? {
        outs := ArtifactReceived(msg.hash, msg.content, msg.meta);
      } else if msg.Handshake? {
        outs := HandshakeReceived(sender, msg.token);
      } else if msg.HandshakeAck? {
        outs := HandshakeAckReceived(sender, msg.token);
      } else if msg.MissionBroadcast? || msg.MissionJoin? || msg.MissionResult? || msg.MissionStatus? {
        outs := RouteMission(sender, msg);
      } else {
        outs := RouteGossip(sender, msg);
      }
    }

    method RouteMission(sender: NodeId, msg: Message) returns (outs: seq<Out>)
      requires Valid() && (msg.MissionBroadcast? || msg.MissionJoin? || msg.MissionResult? || msg.MissionStatus?)
      modifies this`networkMissions
      ensures Valid() && (View(), outs) == Handle(store.hash, old(View()), sender, msg)
    {
      outs := [];
      if msg.MissionBroadcast? {
        outs := MissionReceived(sender, msg.mission, msg.objective, msg.required);
      } else if msg.MissionJoin? {
        outs := MissionJoined(msg.mission, msg.node, msg.agents);
      } else if msg.MissionResult? {
        MissionResultReceived(msg.mission, msg.node, msg.result);
      } else {
        MissionStatusReceived(msg.mission, msg.status);
      }
    }

    /** The handlers of catalogs and artifact requests; every other message is ignored. */
    method RouteGossip(sender: NodeId, msg: Message) returns (outs: seq<Out>)
      requires Valid() && !msg.ArtifactResponse? && !msg.Handshake? && !msg.HandshakeAck?
      requires !msg.MissionBroadcast? && !msg.MissionJoin? && !msg.MissionResult? && !msg.MissionStatus?
      modifies this`pendingArtifactRequests
      ensures Valid() && (View(), outs) == Handle(store.hash, old(View()), sender, msg)
    {
      if msg.CatalogSync? {
        outs := CatalogSyncReceived(msg.entries);
      } else if msg.CatalogRequest? {
        var catalog := SendCatalogTo();
        outs := Replies(catalog);
      } else if msg.ArtifactRequest? {
        outs := ArtifactRequested(msg.hash);
      } else if msg.ArtifactAnnounce? {
        outs := ArtifactAnnounced(msg.hash);
      } else {
        outs := [];
      }
    }
  }
}
