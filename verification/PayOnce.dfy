/** Over every run: one reward and one delivery per workload, and only for a verified result. */
module PayOnce {
  import opened Wrappers
  import opened PopProof
  import opened Workloads

  function RewardsFor(rewards: seq<Reward>, id: Id): nat {
    if rewards == [] then 0
    else RewardsFor(rewards[..|rewards| - 1], id) + if rewards[|rewards| - 1].id == id then 1 else 0
  }

  function HandedFor(handed: seq<(Id, Record)>, id: Id): nat {
    if handed == [] then 0
    else HandedFor(handed[..|handed| - 1], id) + if handed[|handed| - 1].0 == id then 1 else 0
  }

  predicate IsCompleted(b: Bridge, id: Id) {
    id in b.workloads && b.workloads[id].status == Completed
  }

  function One(yes: bool): nat {
    if yes then 1 else 0
  }

  /** The result a record carries is the one its completed workload accepted. */
  ghost predicate RecordIsResult(b: Bridge, id: Id, result: Json) {
    IsCompleted(b, id) && b.workloads[id].result == Some(result)
  }

  ghost predicate RewardIsEarned(c: Codec, b: Bridge, r: Reward) {
    && RecordIsResult(b, r.id, r.result) && b.workloads[r.id].data == r.data && b.workloads[r.id].completedAt == r.time
    && Verify(c, r.proof, r.data, r.result, r.wallet, r.time)
  }

  ghost predicate Paid(c: Codec, b: Bridge) {
    && (forall id :: RewardsFor(b.rewards, id) == One(b.blockchain && IsCompleted(b, id)))
    && (forall r | r in b.rewards :: RewardIsEarned(c, b, r))
  }

  ghost predicate Delivered(b: Bridge) {
    && (forall id :: HandedFor(b.handed, id) + One(id in b.results) == One(IsCompleted(b, id)))
    && (forall id | id in b.results :: RecordIsResult(b, id, b.results[id].result))
    && (forall h | h in b.handed :: RecordIsResult(b, h.0, h.1.result))
  }

  /** Accepting a result is the one step that pays: known workload, not completed yet, proof valid.
      A workload that has failed or expired is still paid for by a late valid result. */
  lemma ResultPaysExactlyWhen(c: Codec, b: Bridge, sender: NodeId, m: ResultMsg, now: real)
    ensures OnResult(c, b, sender, m, now).rewards != b.rewards
            <==> && b.blockchain && m.id in b.workloads && b.workloads[m.id].status != Completed
                 && Verify(c, m.proof, b.workloads[m.id].data, m.result, m.wallet, now)
  {
  }

  lemma OthersPayNothing(c: Codec, b: Bridge, e: Timed)
    requires !e.event.Result?
    ensures Step(c, b, e).rewards == b.rewards && Step(c, b, e).blockchain == b.blockchain
    ensures !e.event.Poll? ==> Step(c, b, e).results == b.results && Step(c, b, e).handed == b.handed
  {
    hide OnResult, SomeoneAvailable, IsExpired, Penalised, ExpireAll, NewWorkload;
  }

  /** A step that accepts no result leaves the set of completed workloads, and those workloads, alone. */
  lemma CompletedStay(c: Codec, b: Bridge, e: Timed, id: Id)
    requires e.event.Dispatch? ==> e.event.id !in b.workloads
    requires !e.event.Result?
    ensures IsCompleted(b, id) <==> IsCompleted(Step(c, b, e), id)
    ensures IsCompleted(b, id) ==> Step(c, b, e).workloads[id] == b.workloads[id]
  {
    if id in b.workloads {
      StepAdvances(c, b, e, id);
      if e.event.Claim? || e.event.Reject? || e.event.Cleanup? {
        assert Step(c, b, e).workloads[id].status == Completed ==> b.workloads[id].status == Completed;
      }
    } else if id in Step(c, b, e).workloads {
      NewcomersAreDispatched(c, b, e, id);
    }
  }

  lemma QuietStepKeepsPaid(c: Codec, b: Bridge, e: Timed)
    requires e.event.Dispatch? ==> e.event.id !in b.workloads
    requires !e.event.Result? && Paid(c, b)
    ensures Paid(c, Step(c, b, e))
  {
    OthersPayNothing(c, b, e);
    forall id
      ensures IsCompleted(b, id) <==> IsCompleted(Step(c, b, e), id)
      ensures IsCompleted(b, id) ==> Step(c, b, e).workloads[id] == b.workloads[id]
    {
      CompletedStay(c, b, e, id);
    }
    forall r | r in b.rewards
      ensures RewardIsEarned(c, Step(c, b, e), r)
    {
      assert RewardIsEarned(c, b, r);
    }
  }

  lemma QuietStepKeepsDelivered(c: Codec, b: Bridge, e: Timed)
    requires e.event.Dispatch? ==> e.event.id !in b.workloads
    requires !e.event.Result? && !e.event.Poll? && Delivered(b)
    ensures Delivered(Step(c, b, e))
  {
    OthersPayNothing(c, b, e);
    forall id
      ensures IsCompleted(b, id) <==> IsCompleted(Step(c, b, e), id)
      ensures IsCompleted(b, id) ==> Step(c, b, e).workloads[id] == b.workloads[id]
    {
      CompletedStay(c, b, e, id);
    }
  }

  lemma PollKeepsDelivered(b: Bridge, id: Id)
    requires Delivered(b)
    ensures Delivered(OnPoll(b, id))
  {
    if id in b.results {
      var b' := OnPoll(b, id);
      assert b'.handed[..|b.handed|] == b.handed;
      forall id'
        ensures HandedFor(b'.handed, id') + One(id' in b'.results) == One(IsCompleted(b', id'))
      {
        assert HandedFor(b.handed, id') + One(id' in b.results) == One(IsCompleted(b, id'));
      }
    }
  }

  lemma AcceptKeepsPaid(c: Codec, b: Bridge, sender: NodeId, m: ResultMsg, now: real)
    requires m.id in b.workloads && b.workloads[m.id].status != Completed && Paid(c, b)
    requires Verify(c, m.proof, b.workloads[m.id].data, m.result, m.wallet, now)
    ensures Paid(c, Accept(b, sender, m, now))
  {
    var b' := Accept(b, sender, m, now);
    if b.blockchain {
      assert b'.rewards[..|b.rewards|] == b.rewards;
    }
    forall r | r in b'.rewards
      ensures RewardIsEarned(c, b', r)
    {
      if r in b.rewards {
        assert RewardIsEarned(c, b, r);
      }
    }
    forall id
      ensures RewardsFor(b'.rewards, id) == One(b'.blockchain && IsCompleted(b', id))
    {
      assert RewardsFor(b.rewards, id) == One(b.blockchain && IsCompleted(b, id));
    }
  }

  lemma AcceptKeepsDelivered(b: Bridge, sender: NodeId, m: ResultMsg, now: real)
    requires m.id in b.workloads && b.workloads[m.id].status != Completed && Delivered(b)
    ensures Delivered(Accept(b, sender, m, now))
  {
    var b' := Accept(b, sender, m, now);
    forall id
      ensures HandedFor(b'.handed, id) + One(id in b'.results) == One(IsCompleted(b', id))
    {
      assert HandedFor(b.handed, id) + One(id in b.results) == One(IsCompleted(b, id));
    }
    forall h | h in b'.handed
      ensures RecordIsResult(b', h.0, h.1.result)
    {
      assert RecordIsResult(b, h.0, h.1.result);
    }
    forall id | id in b'.results
      ensures RecordIsResult(b', id, b'.results[id].result)
    {
      if id != m.id {
        assert RecordIsResult(b, id, b.results[id].result);
      }
    }
  }

  lemma StepKeepsPaidAndDelivered(c: Codec, b: Bridge, e: Timed)
    requires e.event.Dispatch? ==> e.event.id !in b.workloads
    requires Paid(c, b) && Delivered(b)
    ensures Paid(c, Step(c, b, e)) && Delivered(Step(c, b, e))
  {
    match e.event
    case Result(sender, m) =>
      if m.id in b.workloads && b.workloads[m.id].status != Completed && Verify(c, m.proof, b.workloads[m.id].data, m.result, m.wallet, e.time) {
        AcceptKeepsPaid(c, b, sender, m, e.time);
        AcceptKeepsDelivered(b, sender, m, e.time);
      } else {
        RefusedKeeps(c, b, sender, m, e.time);
      }
    case Poll(id) =>
      QuietStepKeepsPaid(c, b, e);
      PollKeepsDelivered(b, id);
    case _ =>
      QuietStepKeepsPaid(c, b, e);
      QuietStepKeepsDelivered(c, b, e);
  }

  lemma RefusedKeeps(c: Codec, b: Bridge, sender: NodeId, m: ResultMsg, now: real)
    requires Paid(c, b) && Delivered(b)
    requires m.id !in b.workloads || b.workloads[m.id].status == Completed || !Verify(c, m.proof, b.workloads[m.id].data, m.result, m.wallet, now)
    ensures Paid(c, OnResult(c, b, sender, m, now)) && Delivered(OnResult(c, b, sender, m, now))
  {
    var b' := OnResult(c, b, sender, m, now);
    assert b' == b.(peers := b'.peers);
    forall r | r in b.rewards
      ensures RewardIsEarned(c, b', r)
    {
      assert RewardIsEarned(c, b, r);
    }
  }

  /** Any order of claims, results, rejects, cleanups and waiters: each workload is paid for at most once,
      exactly when it is completed and there is a blockchain, and only for a verified result; its
      result is handed over at most once, and what is handed over is what was accepted. */
  lemma {:induction false} PaidAndDeliveredOnce(c: Codec, self: NodeId, chain: bool, events: seq<Timed>)
    requires FreshIds(events)
    ensures Paid(c, After(c, Start(self, chain), events)) && Delivered(After(c, Start(self, chain), events))
  {
    if events != [] {
      var n := |events| - 1;
      PaidAndDeliveredOnce(c, self, chain, events[..n]);
      var before := After(c, Start(self, chain), events[..n]);
      if events[n].event.Dispatch? && events[n].event.id in before.workloads {
        IdIsTaken(c, self, chain, events, n, events[n].event.id);
        assert false;
      }
      StepKeepsPaidAndDelivered(c, before, events[n]);
    }
  }

  // ----- one proof, several payments -----

  lemma {:induction false} RewardedTwice(rewards: seq<Reward>, i: nat, j: nat)
    requires i < j < |rewards| && rewards[i].id == rewards[j].id
    ensures RewardsFor(rewards, rewards[j].id) >= 2
  {
    var n := |rewards| - 1;
    if j < n {
      RewardedTwice(rewards[..n], i, j);
    } else {
      RewardedOnce(rewards[..n], i);
    }
  }

  lemma {:induction false} RewardedOnce(rewards: seq<Reward>, i: nat)
    requires i < |rewards|
    ensures RewardsFor(rewards, rewards[i].id) >= 1
  {
    var n := |rewards| - 1;
    if i < n {
      RewardedOnce(rewards[..n], i);
    }
  }

  /** When one proof has been paid twice, it was for two workloads that serialise alike, with results that do, within
      660 seconds, and to one wallet if both named one, unless the serialisations collide. */
  lemma {:induction false} PaidTwiceOnlyForEquals(c: Codec, self: NodeId, chain: bool, events: seq<Timed>, i: nat, j: nat)
    requires FreshIds(events)
    requires var rewards := After(c, Start(self, chain), events).rewards; i < j < |rewards| && rewards[i].proof == rewards[j].proof
    requires var rewards := After(c, Start(self, chain), events).rewards;
             && Separates(c.hash, Serialize(c, rewards[i].data), Serialize(c, rewards[j].data))
             && Separates(c.hash, Serialize(c, rewards[i].result), Serialize(c, rewards[j].result))
    ensures var r, s := After(c, Start(self, chain), events).rewards[i], After(c, Start(self, chain), events).rewards[j];
            && r.id != s.id && Serialize(c, r.data) == Serialize(c, s.data) && Serialize(c, r.result) == Serialize(c, s.result)
            && (r.wallet == "" || s.wallet == "" || r.wallet == s.wallet)
            && -(FUTURE_SLACK + MAX_AGE) <= s.time - r.time <= FUTURE_SLACK + MAX_AGE
  {
    hide After, Verify, Delivered, RecordIsResult;
    PaidAndDeliveredOnce(c, self, chain, events);
    var b := After(c, Start(self, chain), events);
    var r, s := b.rewards[i], b.rewards[j];
    assert RewardIsEarned(c, b, r) && RewardIsEarned(c, b, s);
    assert RewardsFor(b.rewards, s.id) == One(b.blockchain && IsCompleted(b, s.id));
    if r.id == s.id {
      RewardedTwice(b.rewards, i, j);
    }
    ProofServesOneWorkload(c, r.proof, r.data, r.result, r.wallet, r.time, s.data, s.result, s.wallet, s.time);
  }

  /** On every run, a proof that has been paid is paid once more exactly for a result of a known workload not yet
      completed that serialises like the one paid for, with a result that does, while the proof is in its window:
      nothing remembers which proofs were used. */
  lemma {:induction false} PaidAgainExactly(c: Codec, self: NodeId, chain: bool, events: seq<Timed>, r: Reward, sender: NodeId, m: ResultMsg, now: real)
    requires FreshIds(events) && r in After(c, Start(self, chain), events).rewards && m.proof == r.proof
    requires var b := After(c, Start(self, chain), events);
             m.id in b.workloads ==> Separates(c.hash, Serialize(c, r.data), Serialize(c, b.workloads[m.id].data))
    requires Separates(c.hash, Serialize(c, r.result), Serialize(c, m.result))
    ensures var b := After(c, Start(self, chain), events);
            Step(c, b, Timed(now, Result(sender, m))).rewards != b.rewards
            <==> && m.id in b.workloads && b.workloads[m.id].status != Completed
                 && Serialize(c, b.workloads[m.id].data) == Serialize(c, r.data) && Serialize(c, m.result) == Serialize(c, r.result)
                 && MinerFits(r.proof, m.wallet) && InWindow(r.proof, now)
  {
    hide After, Verify, Delivered, Accept, MinerFits, InWindow;
    PaidAndDeliveredOnce(c, self, chain, events);
    var b := After(c, Start(self, chain), events);
    assert RewardIsEarned(c, b, r);
    var i :| 0 <= i < |b.rewards| && b.rewards[i] == r;
    RewardedOnce(b.rewards, i);
    assert RewardsFor(b.rewards, r.id) == One(b.blockchain && IsCompleted(b, r.id));
    ResultPaysExactlyWhen(c, b, sender, m, now);
    if m.id in b.workloads {
      AcceptedAgainExactly(c, r.proof, r.data, r.result, r.wallet, r.time, b.workloads[m.id].data, m.result, m.wallet, now);
    }
  }

  // ----- two runs -----

  const MINER := "miner"

  /** The result for the workload `id`, proved at the given time. */
  function AnswerFor(c: Codec, id: Id, data: Json, now: real): ResultMsg {
    ResultMsg(id, id, MINER, Str("done"), 1.0, Generate(c, "key", data, Str("done"), MINER, 1.0, now, 1.0, "gpu"))
  }

  /** A peer is there, and one workload is dispatched. */
  function Opening(data: Json): seq<Timed> {
    [Timed(1.0, Announce("peer", 1.0, true, 0, 1, 1.0)), Timed(1.0, Dispatch("a", "a", data, "kind"))]
  }

  lemma {:induction false} AfterOne(c: Codec, b: Bridge, events: seq<Timed>, e: Timed)
    ensures After(c, b, events + [e]) == Step(c, After(c, b, events), e)
  {
    assert (events + [e])[..|events|] == events;
  }

  function WithPeer(): Bridge {
    Start("self", true).(peers := map["peer" := Peer(1.0, true, 0, 1, 1.0, 1.0, 0, 0)])
  }

  lemma PeerIsAvailable(b: Bridge)
    requires b.self == "self" && b.peers == WithPeer().peers
    ensures SomeoneAvailable(b, 1.0)
  {
    assert "peer" in b.peers && "peer" != b.self && IsAvailable(b.peers["peer"], 1.0);
  }

  lemma {:induction false} AfterOpening(c: Codec, data: Json)
    ensures After(c, Start("self", true), Opening(data)) == WithPeer().(workloads := map["a" := NewWorkload("a", data, "kind", 1.0)])
  {
    hide After, SomeoneAvailable;
    var start := Start("self", true);
    var announce, dispatch := Timed(1.0, Announce("peer", 1.0, true, 0, 1, 1.0)), Timed(1.0, Dispatch("a", "a", data, "kind"));
    assert Opening(data) == [announce] + [dispatch] && [announce] == [] + [announce];
    AfterNothing(c, start);
    AfterOne(c, start, [], announce);
    assert Step(c, start, announce) == WithPeer();
    AfterOne(c, start, [announce], dispatch);
    PeerIsAvailable(WithPeer());
  }

  lemma {:induction false} AfterNothing(c: Codec, b: Bridge)
    ensures After(c, b, []) == b
  {
  }

  /** A workload that nobody claimed expires after 300 seconds, and a result that comes later is paid. */
  lemma {:induction false} ExpiredIsPaid(c: Codec, data: Json)
    ensures var cleaned := Opening(data) + [Timed(400.0, Cleanup)];
            var b := After(c, Start("self", true), cleaned);
            && b.workloads.Keys == {"a"} && b.workloads["a"].status == Expired
            && |After(c, Start("self", true), cleaned + [Timed(401.0, Result("peer", AnswerFor(c, "a", data, 401.0)))]).rewards| == 1
  {
    hide After, Generate, Verify, SomeoneAvailable;
    var start := Start("self", true);
    var cleaned := Opening(data) + [Timed(400.0, Cleanup)];
    AfterOpening(c, data);
    AfterOne(c, start, Opening(data), Timed(400.0, Cleanup));
    AfterOne(c, start, cleaned, Timed(401.0, Result("peer", AnswerFor(c, "a", data, 401.0))));
    GenerateThenVerify(c, "key", data, Str("done"), MINER, 1.0, 401.0, 1.0, "gpu", MINER, 401.0);
  }

  /** Two workloads with the same data, one proof, two payments. */
  lemma {:induction false} OneProofIsPaidTwice(c: Codec, data: Json)
    ensures var m := AnswerFor(c, "a", data, 2.0);
            var rewards := After(c, Start("self", true), Opening(data) + [Timed(1.0, Dispatch("b", "b", data, "kind"))]
                                   + [Timed(2.0, Result("peer", m))] + [Timed(2.0, Result("peer", m.(id := "b")))]).rewards;
            |rewards| == 2 && rewards[0].proof == rewards[1].proof && rewards[0].id != rewards[1].id
  {
    hide After, Generate, Verify, SomeoneAvailable;
    var start := Start("self", true);
    var m := AnswerFor(c, "a", data, 2.0);
    var dispatched := Opening(data) + [Timed(1.0, Dispatch("b", "b", data, "kind"))];
    AfterOpening(c, data);
    PeerIsAvailable(After(c, start, Opening(data)));
    AfterOne(c, start, Opening(data), Timed(1.0, Dispatch("b", "b", data, "kind")));
    AfterOne(c, start, dispatched, Timed(2.0, Result("peer", m)));
    AfterOne(c, start, dispatched + [Timed(2.0, Result("peer", m))], Timed(2.0, Result("peer", m.(id := "b"))));
    GenerateThenVerify(c, "key", data, Str("done"), MINER, 1.0, 2.0, 1.0, "gpu", MINER, 2.0);
  }
}
