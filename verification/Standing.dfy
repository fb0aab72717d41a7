/** The compute peers: who is on the list, what their standing is, and who gets work. */
module Standing {
  import opened Wrappers
  import opened PopProof
  import opened Workloads

  /** A result by `s` for a workload that is known and not completed. */
  predicate Submits(b: Bridge, e: Timed, s: NodeId) {
    && e.event.Result? && e.event.sender == s && e.event.msg.id in b.workloads
    && b.workloads[e.event.msg.id].status != Completed
  }

  predicate Delivers(c: Codec, b: Bridge, e: Timed, s: NodeId) {
    Submits(b, e, s) && var m := e.event.msg; Verify(c, m.proof, b.workloads[m.id].data, m.result, m.wallet, e.time)
  }

  predicate Fails(c: Codec, b: Bridge, e: Timed, s: NodeId) {
    (Submits(b, e, s) && !Delivers(c, b, e, s)) || (e.event.Reject? && e.event.sender == s)
  }

  predicate Announces(e: Timed, s: NodeId) {
    e.event.Announce? && e.event.sender == s
  }

  /** A peer joins by announcing itself, and leaves by a cleanup more than ten minutes after its last announcement. */
  lemma PeersExactly(c: Codec, b: Bridge, e: Timed, s: NodeId)
    ensures s in Step(c, b, e).peers
            <==> Announces(e, s) || (s in b.peers && !(e.event.Cleanup? && e.time - b.peers[s].lastAnnounce > 600.0))
  {
    hide Verify, SomeoneAvailable, IsExpired, ExpireAll, NewWorkload, Raised;
    match e.event
    case Result(_, _) =>
    case Reject(_, _) =>
    case Announce(_, _, _, _, _, _) =>
    case _ =>
  }

  /** An announcement of a known peer changes what it announces and nothing of its standing; a new one starts with the
      reputation it claims. */
  lemma AnnouncedExactly(c: Codec, b: Bridge, e: Timed, s: NodeId)
    requires Announces(e, s)
    ensures var p, a := Step(c, b, e).peers[s], e.event;
            && p.tflops == a.tflops && p.available == a.available && p.active == a.active && p.lastAnnounce == e.time
            && (s in b.peers ==>
                  && p.maxConcurrent == b.peers[s].maxConcurrent && p.reputation == b.peers[s].reputation
                  && p.completed == b.peers[s].completed && p.failed == b.peers[s].failed)
            && (s !in b.peers ==> p.maxConcurrent == a.maxConcurrent && p.reputation == a.reputation && p.completed == p.failed == 0)
  {
  }

  ghost predicate Moved(c: Codec, b: Bridge, e: Timed, s: NodeId, p: Peer, p': Peer) {
    && p' == p.(reputation := p'.reputation, completed := p'.completed, failed := p'.failed)
    && p'.completed == p.completed + (if Delivers(c, b, e, s) then 1 else 0)
    && p'.failed == p.failed + (if Fails(c, b, e, s) then 1 else 0)
    && (Delivers(c, b, e, s) ==> p'.reputation == if p.reputation <= 0.95 then p.reputation + 0.05 else 1.0)
    && (Fails(c, b, e, s) ==> p'.reputation == p.reputation * if e.event.Reject? then 0.9 else 0.8)
    && (!Delivers(c, b, e, s) && !Fails(c, b, e, s) ==> p'.reputation == p.reputation)
  }

  lemma ResultMoves(c: Codec, b: Bridge, e: Timed, s: NodeId)
    requires e.event.Result? && s in b.peers
    ensures var b' := OnResult(c, b, e.event.sender, e.event.msg, e.time); s in b'.peers && Moved(c, b, e, s, b.peers[s], b'.peers[s])
  {
    hide Verify;
  }

  lemma RejectMoves(c: Codec, b: Bridge, e: Timed, s: NodeId)
    requires e.event.Reject? && s in b.peers
    ensures var b' := OnReject(b, e.event.sender, e.event.id); s in b'.peers && Moved(c, b, e, s, b.peers[s], b'.peers[s])
  {
    hide Verify;
  }

  lemma OthersMoveNothing(c: Codec, b: Bridge, e: Timed, s: NodeId)
    requires !e.event.Result? && !e.event.Reject? && !Announces(e, s) && s in b.peers && s in Step(c, b, e).peers
    ensures Step(c, b, e).peers[s] == b.peers[s] && !Delivers(c, b, e, s) && !Fails(c, b, e, s)
  {
    hide OnResult, OnReject, Verify, SomeoneAvailable, IsExpired, ExpireAll, NewWorkload;
  }

  /** The standing of a peer moves only by what it does: up by a twentieth, to 1 at most, for a result that is accepted;
      down by a fifth for a proof that fails, by a tenth for a reject. */
  lemma {:induction false} StandingExactly(c: Codec, b: Bridge, e: Timed, s: NodeId)
    requires s in b.peers && s in Step(c, b, e).peers && !Announces(e, s)
    ensures Moved(c, b, e, s, b.peers[s], Step(c, b, e).peers[s])
  {
    if e.event.Result? {
      hide *;
      ResultMoves(c, b, e, s);
      ResultStep(c, b, e);
    } else if e.event.Reject? {
      hide *;
      RejectMoves(c, b, e, s);
      RejectStep(c, b, e);
    } else {
      hide Delivers, Fails, Step;
      OthersMoveNothing(c, b, e, s);
    }
  }

  lemma ResultStep(c: Codec, b: Bridge, e: Timed)
    requires e.event.Result?
    ensures Step(c, b, e) == OnResult(c, b, e.event.sender, e.event.msg, e.time)
  {
  }

  lemma RejectStep(c: Codec, b: Bridge, e: Timed)
    requires e.event.Reject?
    ensures Step(c, b, e) == OnReject(b, e.event.sender, e.event.id)
  {
  }

  /** A dispatch is recorded exactly if some other peer says it is available, said so less than five minutes ago, has
      room, and is trusted at more than 0.3. */
  lemma DispatchExactly(c: Codec, b: Bridge, e: Timed)
    requires e.event.Dispatch?
    ensures var b' := Step(c, b, e);
            if exists n :: n in b.peers && n != b.self && MayWork(b.peers[n], e.time)
            then b' == b.(workloads := b'.workloads) && b'.workloads.Keys == b.workloads.Keys + {e.event.id}
                 && b'.workloads[e.event.id] == Workload(e.event.key, e.event.data, e.event.kind, Pending, None, None, e.time, 0.0, 0.0)
                 && forall id | id in b.workloads && id != e.event.id :: b'.workloads[id] == b.workloads[id]
            else b' == b
  {
    assert forall n | n in b.peers :: IsAvailable(b.peers[n], e.time) <==> MayWork(b.peers[n], e.time);
  }

  predicate MayWork(p: Peer, now: real) {
    p.available && p.lastAnnounce > now - 300.0 && p.active < p.maxConcurrent && !(p.reputation <= 0.3)
  }

  /** A cleanup expires exactly the workloads claimed more than two minutes ago and those unclaimed for more than five. */
  lemma ExpiredExactly(c: Codec, b: Bridge, e: Timed, id: Id)
    requires e.event.Cleanup? && id in b.workloads
    ensures var w := b.workloads[id];
            && id in Step(c, b, e).workloads
            && Step(c, b, e).workloads[id]
               == if (w.status == Claimed && w.claimedAt > 0.0 && e.time > w.claimedAt + 120.0) || (w.status == Pending && e.time > w.createdAt + 300.0)
                  then w.(status := Expired) else w
  {
  }

  // ----- whole runs -----

  /** Peers claim reputations from 0 to 1. */
  ghost predicate ModestClaims(events: seq<Timed>) {
    forall e | e in events && e.event.Announce? :: 0.0 <= e.event.reputation <= 1.0
  }

  function Tenths(k: nat): real {
    if k == 0 then 1.0 else 0.9 * Tenths(k - 1)
  }

  ghost predicate Fair(p: Peer) {
    0.0 <= p.reputation <= 1.0 && (p.completed == 0 ==> p.reputation <= Tenths(p.failed))
  }

  lemma StepIsFair(c: Codec, b: Bridge, e: Timed)
    requires forall s | s in b.peers :: Fair(b.peers[s])
    requires e.event.Announce? ==> 0.0 <= e.event.reputation <= 1.0
    ensures forall s | s in Step(c, b, e).peers :: Fair(Step(c, b, e).peers[s])
  {
    hide Step, Delivers, Fails;
    forall s | s in Step(c, b, e).peers
      ensures Fair(Step(c, b, e).peers[s])
    {
      PeersExactly(c, b, e, s);
      if Announces(e, s) {
        AnnouncedExactly(c, b, e, s);
      } else {
        StandingExactly(c, b, e, s);
        NotBoth(c, b, e, s);
      }
    }
  }

  lemma NotBoth(c: Codec, b: Bridge, e: Timed, s: NodeId)
    ensures !(Delivers(c, b, e, s) && Fails(c, b, e, s))
  {
  }

  /** On every run reputations stay from 0 to 1, and one that never delivered is at most 0.9 for each failure. */
  lemma {:induction false} StandingsAreFair(c: Codec, self: NodeId, chain: bool, events: seq<Timed>)
    requires ModestClaims(events)
    ensures forall s | s in After(c, Start(self, chain), events).peers :: Fair(After(c, Start(self, chain), events).peers[s])
  {
    hide Step, Fair;
    if events != [] {
      var n := |events| - 1;
      StandingsAreFair(c, self, chain, events[..n]);
      assert events[n] in events;
      StepIsFair(c, After(c, Start(self, chain), events[..n]), events[n]);
    }
  }

  lemma {:induction false} TenthsFall(j: nat, k: nat)
    requires j <= k
    ensures 0.0 <= Tenths(k) <= Tenths(j)
  {
    if j < k {
      TenthsFall(j, k - 1);
    } else if k > 0 {
      TenthsFall(k - 1, k - 1);
    }
  }

  lemma TwelveTenths()
    ensures Tenths(12) <= 0.3
  {
    assert Tenths(4) == 0.6561;
    assert Tenths(8) == Tenths(4) * Tenths(4);
    assert Tenths(12) == Tenths(8) * Tenths(4);
  }

  /** Twelve failures without a delivery, and a peer gets no more work. */
  lemma {:induction false} TwelveFailuresExclude(c: Codec, self: NodeId, chain: bool, events: seq<Timed>, s: NodeId, now: real)
    requires ModestClaims(events) && s in After(c, Start(self, chain), events).peers
    requires var p := After(c, Start(self, chain), events).peers[s]; p.completed == 0 && p.failed >= 12
    ensures !MayWork(After(c, Start(self, chain), events).peers[s], now)
  {
    hide After;
    StandingsAreFair(c, self, chain, events);
    TwelveTenths();
    TenthsFall(12, After(c, Start(self, chain), events).peers[s].failed);
  }
}
