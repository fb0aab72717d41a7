/** The bridge object: workloads are records updated in place by the handlers; each handler is proved
    to compute its function in `Workloads`. */
module EconomyBridge {
  import opened Wrappers
  import opened PopProof
  import opened Workloads

  class PendingWorkload {
    const workloadKey: string
    const workloadData: Json
    const workloadType: string
    const createdAt: real
    var status: Status
    var claimedBy: Option<NodeId>
    var result: Option<Json>
    var claimedAt: real
    var completedAt: real

    function Data(): Workload
      reads this
    {
      Workload(workloadKey, workloadData, workloadType, status, claimedBy, result, createdAt, claimedAt, completedAt)
    }

    constructor (key: string, data: Json, kind: string, now: real)
      ensures Data() == NewWorkload(key, data, kind, now)
    {
      workloadKey, workloadData, workloadType, createdAt := key, data, kind, now;
      status, claimedBy, result, claimedAt, completedAt := Pending, None, None, 0.0, 0.0;
    }

    method Become(w: Workload)
      requires w.key == workloadKey && w.data == workloadData && w.kind == workloadType && w.createdAt == createdAt
      modifies this
      ensures Data() == w
    {
      status, claimedBy, result, claimedAt, completedAt := w.status, w.claimedBy, w.result, w.claimedAt, w.completedAt;
    }
  }

  class P2PEconomyBridge {
    const nodeId: NodeId
    const blockchain: bool
    const codec: Codec
    var computePeers: map<NodeId, Peer>
    var pendingWorkloads: map<Id, PendingWorkload>
    var completedResults: map<Id, Record>
    ghost var Model: Bridge

    ghost predicate Valid()
      reads this, pendingWorkloads.Values
    {
      && Model.self == nodeId && Model.blockchain == blockchain
      && Model.peers == computePeers && Model.results == completedResults
      && Model.workloads.Keys == pendingWorkloads.Keys
      && (forall id | id in pendingWorkloads :: pendingWorkloads[id].Data() == Model.workloads[id])
      && (forall i, j | i in pendingWorkloads && j in pendingWorkloads && i != j :: pendingWorkloads[i] != pendingWorkloads[j])
    }

    constructor (codec: Codec, self: NodeId, chain: bool)
      ensures Valid() && Model == Start(self, chain) && this.codec == codec && fresh(pendingWorkloads.Values)
    {
      nodeId, blockchain, this.codec := self, chain, codec;
      computePeers, pendingWorkloads, completedResults := map[], map[], map[];
      Model := Start(self, chain);
    }

    /** Nothing is dispatched unless some other peer can take work now. */
    method DispatchWorkload(id: Id, key: string, data: Json, kind: string, now: real) returns (sent: bool)
      requires Valid()
      modifies this
      ensures Valid() && fresh(pendingWorkloads.Values - old(pendingWorkloads.Values))
      ensures Model == OnDispatch(old(Model), id, key, data, kind, now) && sent == SomeoneAvailable(old(Model), now)
    {
      var available := set n | n in computePeers && n != nodeId && IsAvailable(computePeers[n], now);
      sent := available != {};
      if n :| n in Model.peers && n != nodeId && IsAvailable(Model.peers[n], now) {
        assert n in available;
      }
      if sent {
        assert exists n :: n in available;
        Record(id, key, data, kind, now);
      }
    }

    method Record(id: Id, key: string, data: Json, kind: string, now: real)
      requires Valid()
      modifies this
      ensures Valid() && fresh(pendingWorkloads.Values - old(pendingWorkloads.Values))
      ensures Model == old(Model).(workloads := old(Model).workloads[id := NewWorkload(key, data, kind, now)])
    {
      var pending := new PendingWorkload(key, data, kind, now);
      pendingWorkloads := pendingWorkloads[id := pending];
      Model := Model.(workloads := Model.workloads[id := pending.Data()]);
    }

    /** The fields of one record change in place; `w` is what it amounts to afterwards. */
    method Assign(id: Id, w: Workload)
      requires Valid() && id in pendingWorkloads
      requires var was := Model.workloads[id]; w.key == was.key && w.data == was.data && w.kind == was.kind && w.createdAt == was.createdAt
      modifies this`Model, pendingWorkloads[id]
      ensures Valid() && Model == old(Model).(workloads := old(Model).workloads[id := w])
    {
      pendingWorkloads[id].Become(w);
      Model := Model.(workloads := Model.workloads[id := w]);
    }

    method ComputeClaimed(sender: NodeId, id: Id, now: real)
      requires Valid()
      modifies this`Model, pendingWorkloads.Values
      ensures Valid() && Model == OnClaim(old(Model), sender, id, now)
    {
      if id !in pendingWorkloads {
        return;
      }
      var wl := pendingWorkloads[id];
      if wl.status != Pending {
        return;
      }
      Assign(id, wl.Data().(status := Claimed, claimedBy := Some(sender), claimedAt := now));
    }

    method ComputeRejected(sender: NodeId, id: Id)
      requires Valid()
      modifies this`Model, this`computePeers, pendingWorkloads.Values
      ensures Valid() && Model == OnReject(old(Model), sender, id)
    {
      if id in pendingWorkloads && pendingWorkloads[id].status != Completed {
        Assign(id, pendingWorkloads[id].Data().(status := Failed));
      }
      computePeers := Penalised(computePeers, sender, 0.9);
      Model := Model.(peers := computePeers);
    }

    /** Check, verify, complete, store, reward and praise: one step. */
    method ComputeResulted(sender: NodeId, m: ResultMsg, now: real)
      requires Valid()
      modifies this`Model, this`computePeers, this`completedResults, pendingWorkloads.Values
      ensures Valid() && Model == OnResult(codec, old(Model), sender, m, now)
    {
      if m.id !in pendingWorkloads {
        return;
      }
      var wl := pendingWorkloads[m.id];
      if wl.status == Completed {
        return;
      }
      if !Verify(codec, m.proof, wl.workloadData, m.result, m.wallet, now) {
        computePeers := Penalised(computePeers, sender, 0.8);
        Model := Model.(peers := computePeers);
        return;
      }
      Complete(sender, m, now);
    }

    method Complete(sender: NodeId, m: ResultMsg, now: real)
      requires Valid() && m.id in pendingWorkloads
      modifies this`Model, this`computePeers, this`completedResults, pendingWorkloads.Values
      ensures Valid() && Model == Accept(old(Model), sender, m, now)
    {
      hide Praised, Valid;
      ghost var before := Model;
      var done := CompletedWith(m, now);
      Assign(m.id, done);
      StoreAndPraise(sender, m, before, now);
    }

    method CompletedWith(m: ResultMsg, now: real) returns (done: Workload)
      requires Valid() && m.id in pendingWorkloads
      ensures m.id in Model.workloads && done == Model.workloads[m.id].(status := Completed, result := Some(m.result), completedAt := now)
    {
      done := pendingWorkloads[m.id].Data().(status := Completed, result := Some(m.result), completedAt := now);
    }

    /** What the completion of a workload means for the tables beside it. */
    method StoreAndPraise(sender: NodeId, m: ResultMsg, ghost before: Bridge, now: real)
      requires Valid() && m.id in before.workloads && Model.(workloads := before.workloads) == before
      requires Model.workloads == Accept(before, sender, m, now).workloads
      modifies this`Model, this`computePeers, this`completedResults
      ensures Valid() && Model == Accept(before, sender, m, now)
    {
      hide Praised;
      completedResults := completedResults[m.id := Workloads.Record(m.result, sender, m.wallet, m.elapsed, m.key)];
      computePeers := Praised(computePeers, sender);
      Model := Accept(before, sender, m, now);
    }

    /** One look of `get_workload_result`: the stored result leaves with the waiter; a failed workload
        without one is reported; otherwise the waiter sleeps and looks again. */
    method PollResult(id: Id) returns (found: Option<Record>, failed: bool)
      requires Valid()
      modifies this`completedResults, this`Model
      ensures Valid() && Model == OnPoll(old(Model), id)
      ensures found == (if id in old(completedResults) then Some(old(completedResults)[id]) else None)
      ensures failed <==> found == None && id in Model.workloads && Model.workloads[id].status == Failed
    {
      if id in completedResults {
        found, failed := Some(completedResults[id]), false;
        Model := OnPoll(Model, id);
        completedResults := completedResults - {id};
        return;
      }
      found := None;
      failed := id in pendingWorkloads && pendingWorkloads[id].status == Failed;
    }

    method CleanupExpired(now: real)
      requires Valid()
      modifies this`Model, this`computePeers, pendingWorkloads.Values
      ensures Valid() && Model == OnCleanup(old(Model), now)
    {
      hide Settled, ExpireAll, IsExpired;
      ghost var was := Model;
      var expired := set id | id in pendingWorkloads && IsExpired(pendingWorkloads[id].Data(), now);
      SettledIsExpireAll(was.workloads, expired, now);
      MarkExpired(expired);
      computePeers := map n | n in computePeers && now - computePeers[n].lastAnnounce <= STALE_ANNOUNCE :: computePeers[n];
      Model := Model.(peers := computePeers);
    }

    method MarkExpired(expired: set<Id>)
      requires Valid() && expired <= pendingWorkloads.Keys
      modifies this`Model, pendingWorkloads.Values
      ensures Valid() && Model == old(Model).(workloads := Settled(old(Model).workloads, expired))
    {
      ghost var was := Model;
      ghost var done: set<Id> := {};
      SettleNone(was.workloads);
      var todo := expired;
      while todo != {}
        invariant Valid() && todo <= expired
        invariant forall i :: i in done <==> i in expired && i !in todo
        invariant Model == was.(workloads := Settled(was.workloads, done))
        decreases todo
      {
        var id :| id in todo;
        ExpireOne(id, was, done);
        done := done + {id};
        todo := todo - {id};
      }
      assert done == expired;
    }

    method ExpireOne(id: Id, ghost was: Bridge, ghost done: set<Id>)
      requires Valid() && id in pendingWorkloads && id !in done
      requires Model == was.(workloads := Settled(was.workloads, done))
      modifies this`Model, pendingWorkloads.Values
      ensures Valid() && Model == was.(workloads := Settled(was.workloads, done + {id}))
    {
      SettleOneMore(was.workloads, done, id);
      Assign(id, pendingWorkloads[id].Data().(status := Expired));
    }

    method ComputeAnnounced(sender: NodeId, tflops: real, available: bool, active: int, maxConcurrent: int,
            reputation: real, now: real)
      requires Valid()
      modifies this`Model, this`computePeers
      ensures Valid() && Model == OnAnnounce(old(Model), sender, tflops, available, active, maxConcurrent, reputation, now)
    {
      if sender in computePeers {
        computePeers := computePeers[sender := computePeers[sender].(tflops := tflops, available := available, active := active, lastAnnounce := now)];
      } else {
        computePeers := computePeers[sender := Peer(tflops, available, active, maxConcurrent, now, reputation, 0, 0)];
      }
      Model := Model.(peers := computePeers);
    }
  }

  /** The workloads `ids` marked expired. */
  ghost function Settled(workloads: map<Id, Workload>, ids: set<Id>): map<Id, Workload> {
    map id | id in workloads :: if id in ids then workloads[id].(status := Expired) else workloads[id]
  }

  lemma SettledIsExpireAll(workloads: map<Id, Workload>, ids: set<Id>, now: real)
    requires forall id | id in workloads :: id in ids <==> IsExpired(workloads[id], now)
    ensures Settled(workloads, ids) == ExpireAll(workloads, now)
  {
  }

  lemma SettleNone(workloads: map<Id, Workload>)
    ensures Settled(workloads, {}) == workloads
  {
  }

  lemma SettleOneMore(workloads: map<Id, Workload>, ids: set<Id>, id: Id)
    requires id in workloads && id !in ids
    ensures Settled(workloads, ids + {id}) == Settled(workloads, ids)[id := Settled(workloads, ids)[id].(status := Expired)]
  {
  }
}
