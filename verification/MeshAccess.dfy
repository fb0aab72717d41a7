/** Who gets in: over every sequence of events, the senders that are authenticated, the peers that are registered, and
    where the node's token goes. */
module MeshAccess {
  import opened Wrappers
  import opened ArtifactStore
  import opened MeshNode
  import opened MeshIntegrity
  import RateLimit

  /** `s` presents a token in a handshake or in the answer to one. */
  predicate Greets(e: Event, s: NodeId, token: string) {
    e.Deliver? && e.sender == s && e.msg.Handshake? && e.msg.token == token
  }

  predicate GreetsBack(e: Event, s: NodeId, token: string) {
    e.Deliver? && e.sender == s && e.msg.HandshakeAck? && e.msg.token == token
  }

  /** The token of the node, which is not empty. */
  predicate Presents(n: NodeState, e: Event, s: NodeId) {
    n.token != "" && (Greets(e, s, n.token) || GreetsBack(e, s, n.token))
  }

  // ----- one event -----

  lemma StepKeepsSelf(hash: HashFn, n: NodeState, e: Event)
    ensures var n' := Step(hash, n, e).0; n'.id == n.id && n'.token == n.token
  {
    hide SendCatalog, Put, Wanted, Has, Without, Enlist, AgentsOf, Volunteers, RateLimit.Check, Broadcast;
  }

  lemma {:induction false} WithoutIs(peers: seq<NodeId>, p: NodeId)
    ensures forall q :: q in Without(peers, p) <==> q in peers && q != p
  {
    if peers != [] {
      WithoutIs(peers[1..], p);
    }
  }

  /** A step authenticates exactly the sender that presents the token. */
  lemma {:induction false} StepAuthenticates(hash: HashFn, n: NodeState, e: Event, s: NodeId)
    ensures s in Step(hash, n, e).0.auth <==> s in n.auth || Presents(n, e, s)
  {
    hide SendCatalog, Put, Wanted, Has, Without, Enlist, AgentsOf, Volunteers, RateLimit.Check, Broadcast;
  }

  /** It registers that sender, after a handshake only while fewer than 50 peers are registered, and removes a peer
      only when its connection is gone. */
  lemma {:induction false} StepRegisters(hash: HashFn, n: NodeState, e: Event, s: NodeId)
    ensures s in Step(hash, n, e).0.peers
            <==> || (s in n.peers && e != Disconnect(s))
                 || (n.token != "" && (GreetsBack(e, s, n.token) || (Greets(e, s, n.token) && |n.peers| < 50)))
  {
    hide SendCatalog, Put, Wanted, Has, Without, Enlist, AgentsOf, Volunteers, RateLimit.Check, Broadcast;
    if e.Disconnect? {
      WithoutIs(n.peers, e.peer);
    }
  }

  /** A handshake or answer with any other token changes nothing and is not answered. */
  lemma WrongTokenIsRefused(hash: HashFn, n: NodeState, e: Event)
    requires e.Deliver? && (e.msg.Handshake? || e.msg.HandshakeAck?) && (e.msg.token == "" || e.msg.token != n.token)
    ensures Step(hash, n, e) == (n, [])
  {
    hide SendCatalog;
  }

  /** Whatever else an unauthenticated sender sends, only the limiter takes note of it. */
  lemma {:induction false} StrangersGetNothing(hash: HashFn, n: NodeState, e: Event)
    requires e.Deliver? && e.sender !in n.auth && !Presents(n, e, e.sender)
    ensures Step(hash, n, e).1 == [] && Step(hash, n, e).0 == n.(rates := Step(hash, n, e).0.rates)
  {
    hide SendCatalog, RateLimit.Check;
    if e.msg.Handshake? || e.msg.HandshakeAck? {
      WrongTokenIsRefused(hash, n, e);
    }
  }

  /** The node's token leaves it only in the answer to a handshake that presents it. */
  lemma {:induction false} TokenGoesToHolders(hash: HashFn, n: NodeState, e: Event, o: Out)
    requires o in Step(hash, n, e).1 && (o.msg.Handshake? || o.msg.HandshakeAck?)
    ensures o == Reply(HandshakeAck(n.token)) && n.token != "" && e.Deliver? && Greets(e, e.sender, n.token) && |n.peers| < 50
  {
    hide SendCatalog, Put, Wanted, Has, Without, Enlist, AgentsOf, Volunteers, RateLimit.Check;
    SendCatalogIsSmall(n.store);
    if e.Deliver? && !e.msg.Handshake? && !e.msg.HandshakeAck? {
      GatedSendsNoToken(hash, n, e.sender, e.msg, e.now, o);
    }
  }

  lemma {:induction false} GatedSendsNoToken(hash: HashFn, n: NodeState, sender: NodeId, msg: Message, now: real, o: Out)
    requires !msg.Handshake? && !msg.HandshakeAck? && o in Receive(hash, n, sender, msg, now).1
    ensures !o.msg.Handshake? && !o.msg.HandshakeAck?
  {
    hide Put, Wanted, Has, Without, Enlist, AgentsOf, Volunteers, RateLimit.Check, SendCatalog;
    SendCatalogIsSmall(n.store);
  }

  /** A welcome guest gets the node's answer first, then the other peers, if there are any, then the catalog; past
      the limit of 50 peers it gets nothing. */
  lemma {:induction false} GuestsAreTold(hash: HashFn, n: NodeState, e: Event)
    requires e.Deliver? && n.token != "" && Greets(e, e.sender, n.token)
    ensures var outs := Step(hash, n, e).1;
            && (|n.peers| >= 50 ==> outs == [])
            && (|n.peers| < 50 ==>
                  && |outs| > 0 && outs[0] == Reply(HandshakeAck(n.token))
                  && (forall o | o in outs :: o.Reply?)
                  && (forall o | o in outs && o.msg.PeerList? :: forall q :: q in o.msg.peers <==> q in n.peers && q != e.sender)
                  && ((exists o :: o in outs && o.msg.PeerList?) <==> exists q :: q in n.peers && q != e.sender)
                  && (forall m | m in SendCatalog(n.store) :: Reply(m) in outs))
  {
    hide SendCatalog, Without;
    SendCatalogIsSmall(n.store);
    var others := Without(AddPeer(n.peers, e.sender), e.sender);
    WithoutIs(AddPeer(n.peers, e.sender), e.sender);
    if |n.peers| < 50 {
      var msgs := [HandshakeAck(n.token)] + (if others != [] then [PeerList(others)] else []) + SendCatalog(n.store);
      var outs := Step(hash, n, e).1;
      assert outs == Replies(msgs);
      assert forall i | 0 <= i < |msgs| :: outs[i] == Reply(msgs[i]);
      assert forall m | m in SendCatalog(n.store) :: m.CatalogSync?;
      forall o | o in outs && o.msg.PeerList?
        ensures others != [] && o.msg.peers == others
      {
        var i :| 0 <= i < |outs| && outs[i] == o;
        assert msgs[i] !in SendCatalog(n.store);
      }
      if others != [] {
        assert outs[1] == Reply(PeerList(others)) && others[0] in others;
      }
      if q :| q in n.peers && q != e.sender {
        assert q in others;
      }
      forall m | m in SendCatalog(n.store)
        ensures Reply(m) in outs
      {
        assert m in msgs;
        var i :| 0 <= i < |msgs| && msgs[i] == m;
        assert outs[i] == Reply(m);
      }
    }
  }

  // ----- whole runs -----

  ghost predicate PresentsAt(n: NodeState, events: seq<Event>, i: nat, s: NodeId)
    requires i < |events|
  {
    Presents(n, events[i], s)
  }

  lemma {:induction false} RunKeepsSelf(hash: HashFn, n: NodeState, events: seq<Event>)
    ensures After(hash, n, events).id == n.id && After(hash, n, events).token == n.token
  {
    hide Step;
    if events != [] {
      RunKeepsSelf(hash, n, events[..|events| - 1]);
      StepKeepsSelf(hash, After(hash, n, events[..|events| - 1]), events[|events| - 1]);
    }
  }

  /** On every run a sender is authenticated exactly if it was at first or has presented the node's token. */
  lemma {:induction false} AuthenticatedExactly(hash: HashFn, n: NodeState, events: seq<Event>, s: NodeId)
    ensures s in After(hash, n, events).auth <==> s in n.auth || exists i: nat :: i < |events| && PresentsAt(n, events, i, s)
  {
    hide Step, Presents;
    if events != [] {
      var last := |events| - 1;
      var before := events[..last];
      AuthenticatedExactly(hash, n, before, s);
      RunKeepsSelf(hash, n, before);
      StepAuthenticates(hash, After(hash, n, before), events[last], s);
      SameToken(n, After(hash, n, before), events[last], s);
      if i: nat :| i < last && PresentsAt(n, before, i, s) {
        assert PresentsAt(n, events, i, s);
      }
      if Presents(n, events[last], s) {
        assert PresentsAt(n, events, last, s);
      }
      if i: nat :| i < |events| && PresentsAt(n, events, i, s) {
        assert i < last ==> PresentsAt(n, before, i, s);
      }
    }
  }

  lemma SameToken(n: NodeState, m: NodeState, e: Event, s: NodeId)
    requires m.token == n.token
    ensures Presents(m, e, s) <==> Presents(n, e, s)
  {
  }

  /** A peer that was not registered at first has presented the token. */
  lemma {:induction false} PeersPresented(hash: HashFn, n: NodeState, events: seq<Event>, s: NodeId)
    requires s in After(hash, n, events).peers && s !in n.peers
    ensures exists i: nat :: i < |events| && PresentsAt(n, events, i, s)
  {
    hide Step;
    var last := |events| - 1;
    var before := events[..last];
    RunKeepsSelf(hash, n, before);
    StepRegisters(hash, After(hash, n, before), events[last], s);
    if s in After(hash, n, before).peers {
      PeersPresented(hash, n, before, s);
      var i: nat :| i < last && PresentsAt(n, before, i, s);
      assert PresentsAt(n, events, i, s);
    } else {
      assert PresentsAt(n, events, last, s);
    }
  }

  lemma {:induction false} WithoutIsNoLonger(peers: seq<NodeId>, p: NodeId)
    ensures |Without(peers, p)| <= |peers|
  {
    if peers != [] {
      WithoutIsNoLonger(peers[1..], p);
    }
  }

  /** The limit of 50 peers is passed exactly by an answer to a handshake, which is not checked against it. */
  lemma {:induction false} LimitIsPassedExactly(hash: HashFn, n: NodeState, e: Event)
    requires |n.peers| <= 50
    ensures |Step(hash, n, e).0.peers| > 50
            <==> |n.peers| == 50 && n.token != "" && e.Deliver? && GreetsBack(e, e.sender, n.token) && e.sender !in n.peers
  {
    hide SendCatalog, Put, Wanted, Has, Without, Enlist, AgentsOf, Volunteers, RateLimit.Check, Broadcast;
    if e.Disconnect? {
      WithoutIsNoLonger(n.peers, e.peer);
    }
  }

  /** With 50 peers, an answer from one more makes 51. */
  lemma {:induction false} AnswerPassesLimit(hash: HashFn, n: NodeState, s: NodeId, now: real)
    requires n.token != "" && |n.peers| == 50 && s !in n.peers
    ensures Step(hash, n, Deliver(s, HandshakeAck(n.token), now)).0.peers == n.peers + [s]
  {
  }

  /** On every run without such answers there are at most 50. */
  lemma {:induction false} HandshakesKeepLimit(hash: HashFn, n: NodeState, events: seq<Event>)
    requires |n.peers| <= 50 && forall e | e in events :: e.Deliver? ==> !e.msg.HandshakeAck?
    ensures |After(hash, n, events).peers| <= 50
  {
    hide Step;
    if events != [] {
      var last := |events| - 1;
      assert events[last] in events;
      HandshakesKeepLimit(hash, n, events[..last]);
      LimitIsPassedExactly(hash, After(hash, n, events[..last]), events[last]);
    }
  }

  // ----- what the node does by itself -----

  /** Publishing stores and announces; a scan does so for content that is not empty and not in the catalog yet, and nothing
      for any other; a start tells every peer; a lost connection takes the peer off the table, its authentication stays. */
  lemma {:induction false} OwnStepsExactly(hash: HashFn, n: NodeState, e: Event)
    ensures var (n', outs) := Step(hash, n, e);
            && (e.Publish? || (e.Ingest? && e.content != [] && hash(e.content) !in n.store.catalog) ==>
                  && n' == n.(store := Put(hash, n.store, e.content, e.meta))
                  && |outs| == |n.peers| && forall i | 0 <= i < |outs| :: outs[i] == ToPeer(n.peers[i], ArtifactAnnounce(hash(e.content))))
            && (e.Ingest? && (e.content == [] || hash(e.content) in n.store.catalog) ==> n' == n && outs == [])
            && (e.Start? ==>
                  && n' == n.(missions := n.missions[e.mission := Mission(e.objective, n.id, e.required, "recruiting", [], map[])])
                  && |outs| == |n.peers|
                  && forall i | 0 <= i < |outs| :: outs[i] == ToPeer(n.peers[i], MissionBroadcast(e.mission, e.objective, e.required)))
            && (e.Disconnect? ==> n' == n.(peers := n'.peers) && outs == [] && forall q :: q in n'.peers <==> q in n.peers && q != e.peer)
            && (e.Agents? ==> n' == n.(agents := e.free) && outs == [])
  {
    hide Put, Without;
    if e.Disconnect? {
      WithoutIs(n.peers, e.peer);
    }
  }
}
