/** When a gossip round loses nothing at the gates: the peers know each other, and the traffic between any
    two nodes stays within the limit. */
module MeshTraffic {
  import opened Wrappers
  import opened ArtifactStore
  import opened MeshNode
  import opened MeshNetwork
  import opened MeshGossip
  import opened MeshConvergence
  import opened MeshLimits
  import RateLimit

  // ----- the traffic of a run -----

  /** A message that reaches the limiter of a node. */
  datatype Arrival = Arrival(to: NodeId, sender: NodeId, time: real)

  predicate IsLimited(net: Net, k: nat)
    requires k < |net.flight|
  {
    var p := net.flight[k];
    p.dst in net.nodes && !p.msg.Handshake? && !p.msg.HandshakeAck?
  }

  function Arrivals(hash: HashFn, net: Net, choices: seq<Choice>): seq<Arrival>
    decreases |choices|
  {
    if choices == [] || choices[0].k >= |net.flight| then []
    else
      var c := choices[0];
      var rest := Arrivals(hash, GatedAt(hash, net, c.k, c.now), choices[1..]);
      if IsLimited(net, c.k) then [Arrival(net.flight[c.k].dst, net.flight[c.k].src, c.now)] + rest else rest
  }

  /** The two are from one sender to one node, the first less than 60 seconds before the second. */
  predicate Presses(e: Arrival, a: Arrival) {
    e.to == a.to && e.sender == a.sender && a.time - e.time < RateLimit.WINDOW
  }

  function Pressing(arrivals: seq<Arrival>, a: Arrival): nat {
    if arrivals == [] then 0 else (if Presses(arrivals[0], a) then 1 else 0) + Pressing(arrivals[1..], a)
  }

  /** What a node has on record of a sender for the 60 seconds before `now`. */
  function OnRecord(net: Net, to: NodeId, sender: NodeId, now: real): nat {
    if to in net.nodes then |RateLimit.Prune(RateLimit.Times(net.nodes[to].rates, sender), now)| else 0
  }

  /** With the arrival itself, at most 100 messages of its sender reach its node within 60 seconds, those on record
      at the start included. */
  predicate FitsAt(net: Net, arrivals: seq<Arrival>, j: nat)
    requires j < |arrivals|
  {
    var a := arrivals[j];
    OnRecord(net, a.to, a.sender, a.time) + Pressing(arrivals[..j], a) < RateLimit.MSG_RATE_LIMIT
  }

  ghost predicate WithinLimit(net: Net, arrivals: seq<Arrival>) {
    forall j | 0 <= j < |arrivals| :: FitsAt(net, arrivals, j)
  }

  /** Only gossip is under way, between nodes that have authenticated each other. */
  ghost predicate Acquainted(net: Net, p: Packet) {
    && IsGossip(p.msg)
    && (p.dst in net.nodes ==> p.src in net.nodes[p.dst].auth)
    && (p.src in net.nodes ==> p.dst in net.nodes[p.src].auth)
  }

  ghost predicate AllAcquainted(net: Net) {
    forall p | p in net.flight :: Acquainted(net, p)
  }

  // ----- one message -----

  lemma {:induction false} PruneTwice(times: seq<real>, earlier: real, now: real)
    ensures |RateLimit.Prune(RateLimit.Prune(times, earlier), now)| <= |RateLimit.Prune(times, now)|
  {
    if times != [] {
      PruneTwice(times[1..], earlier, now);
      if earlier - times[0] < RateLimit.WINDOW {
        var kept := RateLimit.Prune(times[1..], earlier);
        assert ([times[0]] + kept)[1..] == kept;
      }
    }
  }

  lemma {:induction false} PruneOneMore(times: seq<real>, time: real, now: real)
    ensures |RateLimit.Prune(times + [time], now)| == |RateLimit.Prune(times, now)| + if now - time < RateLimit.WINDOW then 1 else 0
  {
    if times == [] {
      assert [time][1..] == [];
      assert [] + [time] == [time];
    } else {
      PruneOneMore(times[1..], time, now);
      assert (times + [time])[1..] == times[1..] + [time];
    }
  }

  /** A check adds at most the message itself to what is on record. */
  lemma {:induction false} CheckRecords(rates: RateLimit.Rates, sender: string, time: real, other: string, now: real)
    ensures var after := RateLimit.Check(rates, sender, time).0;
            |RateLimit.Prune(RateLimit.Times(after, other), now)|
            <= |RateLimit.Prune(RateLimit.Times(rates, other), now)| + if other == sender && now - time < RateLimit.WINDOW then 1 else 0
  {
    hide RateLimit.Prune;
    if other == sender {
      var times := RateLimit.Times(rates, sender);
      PruneTwice(times, time, now);
      PruneOneMore(RateLimit.Prune(times, time), time, now);
    }
  }

  lemma HandleKeepsGates(hash: HashFn, n: NodeState, sender: NodeId, msg: Message)
    ensures Handle(hash, n, sender, msg).0.rates == n.rates
    ensures IsGossip(msg) ==> Handle(hash, n, sender, msg).0.auth == n.auth
  {
    hide SendCatalog, Put, Wanted, Has, Without, Enlist, AgentsOf, Volunteers;
  }

  lemma {:induction false} ReceiveRecords(hash: HashFn, n: NodeState, sender: NodeId, msg: Message, time: real)
    ensures var n' := Receive(hash, n, sender, msg, time).0;
            && n'.rates == (if msg.Handshake? || msg.HandshakeAck? then n.rates else RateLimit.Check(n.rates, sender, time).0)
            && (IsGossip(msg) ==> n'.auth == n.auth)
  {
    hide Handle, RateLimit.Check;
    HandleKeepsGates(hash, n, sender, msg);
    HandleKeepsGates(hash, n.(rates := RateLimit.Check(n.rates, sender, time).0), sender, msg);
  }

  lemma {:induction false} OnRecordAfter(hash: HashFn, net: Net, k: nat, time: real, to: NodeId, sender: NodeId, now: real)
    requires k < |net.flight|
    ensures OnRecord(GatedAt(hash, net, k, time), to, sender, now)
         <= OnRecord(net, to, sender, now)
            + if IsLimited(net, k) && Presses(Arrival(net.flight[k].dst, net.flight[k].src, time), Arrival(to, sender, now)) then 1 else 0
  {
    hide Receive, RateLimit.Prune, RateLimit.Check, RateLimit.Times;
    var p := net.flight[k];
    if p.dst in net.nodes {
      ReceiveRecords(hash, net.nodes[p.dst], p.src, p.msg, time);
      CheckRecords(net.nodes[p.dst].rates, p.src, time, sender, now);
    }
  }

  // ----- runs -----

  lemma {:induction false} LimitAfter(hash: HashFn, net: Net, c: Choice, rest: seq<Arrival>)
    requires c.k < |net.flight|
    requires var first := if IsLimited(net, c.k) then [Arrival(net.flight[c.k].dst, net.flight[c.k].src, c.now)] else [];
             WithinLimit(net, first + rest)
    ensures WithinLimit(GatedAt(hash, net, c.k, c.now), rest)
  {
    hide GatedAt, OnRecord, IsLimited, Presses;
    var first := if IsLimited(net, c.k) then [Arrival(net.flight[c.k].dst, net.flight[c.k].src, c.now)] else [];
    forall j | 0 <= j < |rest|
      ensures FitsAt(GatedAt(hash, net, c.k, c.now), rest, j)
    {
      var i := |first| + j;
      assert FitsAt(net, first + rest, i);
      OnRecordAfter(hash, net, c.k, c.now, rest[j].to, rest[j].sender, rest[j].time);
      if first == [] {
        assert first + rest == rest;
      } else {
        assert (first + rest)[..i][1..] == rest[..j] && (first + rest)[..i][0] == first[0];
      }
    }
  }

  lemma AcquaintedAfter(hash: HashFn, net: Net, k: nat, time: real)
    requires k < |net.flight| && AllAcquainted(net)
    ensures var net' := GatedAt(hash, net, k, time);
            AllAcquainted(net') && net'.nodes.Keys == net.nodes.Keys && forall a | a in net.nodes :: net'.nodes[a].auth == net.nodes[a].auth
  {
    hide Receive, IsGossip;
    var p, net' := net.flight[k], GatedAt(hash, net, k, time);
    assert p in net.flight && Acquainted(net, p);
    if p.dst in net.nodes {
      ReceiveRecords(hash, net.nodes[p.dst], p.src, p.msg, time);
      AnswersAreGossip(hash, net.nodes[p.dst], p.src, p.msg, time);
    }
    forall q | q in net'.flight
      ensures Acquainted(net', q)
    {
      if q in Remove(net.flight, k) {
        assert q in net.flight && Acquainted(net, q);
      } else {
        var outs := Receive(hash, net.nodes[p.dst], p.src, p.msg, time).1;
        var i :| 0 <= i < |outs| && q == Address(p.dst, p.src, outs[i]);
        assert outs[i] in outs;
      }
    }
  }

  lemma {:induction false} AnswersAreGossip(hash: HashFn, n: NodeState, sender: NodeId, msg: Message, time: real)
    requires IsGossip(msg)
    ensures forall o | o in Receive(hash, n, sender, msg, time).1 :: o.Reply? && IsGossip(o.msg)
  {
    hide RateLimit.Check;
  }

  lemma {:induction false} PassesWithinLimit(hash: HashFn, net: Net, c: Choice, rest: seq<Arrival>)
    requires c.k < |net.flight| && AllAcquainted(net)
    requires var first := if IsLimited(net, c.k) then [Arrival(net.flight[c.k].dst, net.flight[c.k].src, c.now)] else [];
             WithinLimit(net, first + rest)
    ensures PassesAt(net, c.k, c.now)
  {
    var p := net.flight[c.k];
    assert p in net.flight && Acquainted(net, p);
    if IsLimited(net, c.k) {
      var first := [Arrival(p.dst, p.src, c.now)];
      assert FitsAt(net, first + rest, 0);
    }
  }

  /** A run within the limit drops nothing. */
  lemma {:induction false} NothingIsDropped(hash: HashFn, net: Net, choices: seq<Choice>, end: Net)
    requires GatedRuns(hash, net, choices, end) && AllAcquainted(net) && WithinLimit(net, Arrivals(hash, net, choices))
    ensures AllPass(hash, net, choices)
    decreases |choices|
  {
    hide GatedAt, PassesAt, IsLimited, AllAcquainted, WithinLimit;
    if choices != [] {
      var c := choices[0];
      var rest := Arrivals(hash, GatedAt(hash, net, c.k, c.now), choices[1..]);
      NothingFirst(rest);
      PassesWithinLimit(hash, net, c, rest);
      LimitAfter(hash, net, c, rest);
      AcquaintedAfter(hash, net, c.k, c.now);
      NothingIsDropped(hash, GatedAt(hash, net, c.k, c.now), choices[1..], end);
    }
  }

  lemma NothingFirst(rest: seq<Arrival>)
    ensures [] + rest == rest
  {
  }

  /** Drops or not, nobody's authentications change. */
  lemma {:induction false} RunKeepsAuth(hash: HashFn, net: Net, choices: seq<Choice>, end: Net)
    requires GatedRuns(hash, net, choices, end) && AllAcquainted(net)
    ensures end.nodes.Keys == net.nodes.Keys && forall a | a in net.nodes :: end.nodes[a].auth == net.nodes[a].auth
    decreases |choices|
  {
    hide GatedAt, AllAcquainted;
    if choices != [] {
      AcquaintedAfter(hash, net, choices[0].k, choices[0].now);
      RunKeepsAuth(hash, GatedAt(hash, net, choices[0].k, choices[0].now), choices[1..], end);
    }
  }

  // ----- rounds -----

  /** The two ends of every link have authenticated each other. */
  ghost predicate LinksKnown(net: Net, links: seq<(NodeId, NodeId)>) {
    forall a, b | (a, b) in links && a in net.nodes :: b in net.nodes[a].auth && (b in net.nodes ==> a in net.nodes[b].auth)
  }

  lemma {:induction false} CatalogsAreAcquainted(net: Net, links: seq<(NodeId, NodeId)>, some: seq<(NodeId, NodeId)>)
    requires LinksKnown(net, links) && forall l | l in some :: l in links
    ensures forall p | p in CatalogPackets(net.nodes, some) :: Acquainted(net, p)
  {
    hide SendCatalog;
    if some != [] {
      CatalogsAreAcquainted(net, links, some[1..]);
      var (a, b) := some[0];
      assert some[0] in links;
      if a in net.nodes {
        SendCatalogIsSmall(net.nodes[a].store);
      }
    }
  }

  lemma RoundIsAcquainted(net: Net, links: seq<(NodeId, NodeId)>)
    requires LinksKnown(net, links) && net.flight == []
    ensures AllAcquainted(StartRound(net, links)) && StartRound(net, links).nodes == net.nodes
  {
    hide Acquainted, CatalogPackets;
    CatalogsAreAcquainted(net, links, links);
    assert net.flight + CatalogPackets(net.nodes, links) == CatalogPackets(net.nodes, links);
    forall p | p in StartRound(net, links).flight
      ensures Acquainted(StartRound(net, links), p)
    {
      SameAcquaintance(net, StartRound(net, links), p);
    }
  }

  lemma SameAcquaintance(net: Net, net': Net, p: Packet)
    requires net'.nodes == net.nodes && Acquainted(net, p)
    ensures Acquainted(net', p)
  {
  }

  /** A finished round whose traffic stays within the limit. */
  ghost predicate ModerateRound(hash: HashFn, links: seq<(NodeId, NodeId)>, net: Net, end: Net) {
    end.flight == [] && exists choices :: GatedRuns(hash, StartRound(net, links), choices, end)
                                          && WithinLimit(StartRound(net, links), Arrivals(hash, StartRound(net, links), choices))
  }

  /** It is one without a drop. */
  lemma ModerateRoundIsClean(hash: HashFn, links: seq<(NodeId, NodeId)>, net: Net, end: Net)
    requires LinksKnown(net, links) && net.flight == [] && ModerateRound(hash, links, net, end)
    ensures GatedRound(hash, links, net, end, true)
  {
    hide GatedRuns, AllPass, StartRound, WithinLimit, LinksKnown, AllAcquainted;
    var start := StartRound(net, links);
    var choices :| GatedRuns(hash, start, choices, end) && WithinLimit(start, Arrivals(hash, start, choices));
    RoundIsAcquainted(net, links);
    NothingIsDropped(hash, start, choices, end);
  }

  lemma RoundKeepsLinks(hash: HashFn, links: seq<(NodeId, NodeId)>, net: Net, end: Net)
    requires LinksKnown(net, links) && net.flight == [] && GatedRound(hash, links, net, end, false)
    ensures LinksKnown(end, links) && end.flight == []
  {
    hide GatedRuns, AllPass, StartRound, AllAcquainted;
    var start := StartRound(net, links);
    var choices :| GatedRuns(hash, start, choices, end);
    RoundIsAcquainted(net, links);
    RunKeepsAuth(hash, start, choices, end);
  }

  /** Rounds one after the other, of which `moderate` says whose traffic stayed within the limit. */
  ghost predicate TrafficRounds(hash: HashFn, links: seq<(NodeId, NodeId)>, nets: seq<Net>, moderate: seq<bool>) {
    |nets| == |moderate| + 1 && forall i | 0 <= i < |moderate| :: TrafficRoundAt(hash, links, nets, moderate, i)
  }

  ghost predicate TrafficRoundAt(hash: HashFn, links: seq<(NodeId, NodeId)>, nets: seq<Net>, moderate: seq<bool>, i: nat)
    requires i < |moderate| && i + 1 < |nets|
  {
    if moderate[i] then ModerateRound(hash, links, nets[i], nets[i + 1]) else GatedRound(hash, links, nets[i], nets[i + 1], false)
  }

  lemma CleanIsGated(hash: HashFn, links: seq<(NodeId, NodeId)>, net: Net, end: Net)
    requires GatedRound(hash, links, net, end, true)
    ensures GatedRound(hash, links, net, end, false)
  {
  }

  lemma {:induction false} LinksStayKnown(hash: HashFn, links: seq<(NodeId, NodeId)>, nets: seq<Net>, moderate: seq<bool>, k: nat)
    requires TrafficRounds(hash, links, nets, moderate) && k <= |moderate| && LinksKnown(nets[0], links) && nets[0].flight == []
    ensures LinksKnown(nets[k], links) && nets[k].flight == []
  {
    hide LinksKnown, ModerateRound, GatedRound;
    if k > 0 {
      LinksStayKnown(hash, links, nets, moderate, k - 1);
      assert TrafficRoundAt(hash, links, nets, moderate, k - 1);
      if moderate[k - 1] {
        ModerateRoundIsClean(hash, links, nets[k - 1], nets[k]);
        CleanIsGated(hash, links, nets[k - 1], nets[k]);
      }
      RoundKeepsLinks(hash, links, nets[k - 1], nets[k]);
    }
  }

  /** Between peers that know each other, on a connected graph of diameter d: as soon as in d rounds at most 100
      messages of a sender reached a receiver in any 60 seconds, whatever happened in the others, every node has
      exactly the union of what the nodes had at first, the empty artifact aside. */
  lemma {:induction false} ModerateRoundsGiveUnion(hash: HashFn, links: seq<(NodeId, NodeId)>, nets: seq<Net>, moderate: seq<bool>, b: NodeId)
    requires HexDigests(hash) && TrafficRounds(hash, links, nets, moderate) && LinksKnown(nets[0], links)
    requires nets[0].flight == [] && forall a | a in nets[0].nodes :: Intact(hash, nets[0].nodes[a].store)
    requires forall a | a in nets[0].nodes :: Ball(nets[0].nodes.Keys, links, a, CleanRounds(moderate, |moderate|)) == nets[0].nodes.Keys
    requires b in nets[0].nodes
    ensures b in nets[|moderate|].nodes
    ensures nets[|moderate|].nodes[b].store.catalog.Keys - {hash([])} == Union(nets[0]) - {hash([])}
  {
    hide LinksKnown, ModerateRound, GatedRound, Intact, Ball, CleanRounds;
    forall i | 0 <= i < |moderate|
      ensures GatedRoundAt(hash, links, nets, moderate, i)
    {
      assert TrafficRoundAt(hash, links, nets, moderate, i);
      LinksStayKnown(hash, links, nets, moderate, i);
      if moderate[i] {
        ModerateRoundIsClean(hash, links, nets[i], nets[i + 1]);
      }
    }
    DropsOnlyDelay(hash, links, nets, moderate, b);
  }

  // ----- what a dropped message leaves behind -----

  predicate Wants(n: NodeState, h: Hash) {
    h in n.pending || h in n.store.catalog
  }

  lemma GatedKeepsWants(hash: HashFn, universe: set<Hash>, net: Net, k: nat, now: real, b: NodeId, h: Hash)
    requires Honest(hash, universe, net) && k < |net.flight| && b in net.nodes && Wants(net.nodes[b], h)
    ensures b in GatedAt(hash, net, k, now).nodes && Wants(GatedAt(hash, net, k, now).nodes[b], h)
  {
    hide Handle, Receive, Passes, HonestMessage;
    var p := net.flight[k];
    assert p in net.flight;
    if p.dst == b {
      GatesPassOrDrop(hash, net.nodes[b], p.src, p.msg, now);
      PendingUntilStored(hash, universe, net.nodes[b], p.src, p.msg, h);
    }
  }

  /** A hash once requested stays pending, however many requests and answers are dropped, until the artifact is
      there; until then the next catalog of a peer that has it is asked for it again (`BatchIsRequestedWhole`). */
  lemma {:induction false} PendingThroughDrops(hash: HashFn, universe: set<Hash>, net: Net, choices: seq<Choice>, end: Net, b: NodeId, h: Hash)
    requires Honest(hash, universe, net) && GatedRuns(hash, net, choices, end)
    requires b in net.nodes && Wants(net.nodes[b], h)
    ensures b in end.nodes && Wants(end.nodes[b], h)
    decreases |choices|
  {
    hide GatedAt, Honest, Wants;
    if choices != [] {
      GatedKeepsHonesty(hash, universe, net, choices[0].k, choices[0].now);
      GatedKeepsWants(hash, universe, net, choices[0].k, choices[0].now, b, h);
      PendingThroughDrops(hash, universe, GatedAt(hash, net, choices[0].k, choices[0].now), choices[1..], end, b, h);
    }
  }
}
