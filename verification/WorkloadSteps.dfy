/** What each event does to one workload, its stored result and the rewards, case by case. */
module WorkloadSteps {
  import opened Wrappers
  import opened PopProof
  import opened Workloads
  import opened Standing

  /** The event is about the workload, which is known. */
  predicate ClaimOf(b: Bridge, e: Timed, id: Id) {
    e.event.Claim? && e.event.id == id && id in b.workloads
  }

  predicate RejectOf(b: Bridge, e: Timed, id: Id) {
    e.event.Reject? && e.event.id == id && id in b.workloads
  }

  /** A result for a workload that is not completed, with a proof that verifies. */
  predicate GoodResultOf(c: Codec, b: Bridge, e: Timed, id: Id) {
    && e.event.Result? && e.event.msg.id == id && id in b.workloads && b.workloads[id].status != Completed
    && Verify(c, e.event.msg.proof, b.workloads[id].data, e.event.msg.result, e.event.msg.wallet, e.time)
  }

  ghost predicate Changed(c: Codec, b: Bridge, e: Timed, id: Id, w: Workload, w': Workload) {
    && (ClaimOf(b, e, id) && w.status == Pending ==> w' == w.(status := Claimed, claimedBy := Some(e.event.sender), claimedAt := e.time))
    && (GoodResultOf(c, b, e, id) ==> w' == w.(status := Completed, result := Some(e.event.msg.result), completedAt := e.time))
    && (RejectOf(b, e, id) && w.status != Completed ==> w' == w.(status := Failed))
    && (e.event.Cleanup? ==> w' == w || w' == w.(status := Expired))
    && ((!(ClaimOf(b, e, id) && w.status == Pending) && !GoodResultOf(c, b, e, id)
         && !(RejectOf(b, e, id) && w.status != Completed) && !e.event.Cleanup?) ==> w' == w)
  }

  lemma ResultChanges(c: Codec, b: Bridge, e: Timed, id: Id)
    requires id in b.workloads && e.event.Result?
    ensures id in Step(c, b, e).workloads && Changed(c, b, e, id, b.workloads[id], Step(c, b, e).workloads[id])
  {
    hide Verify, Penalised, Praised;
  }

  lemma OthersChange(c: Codec, b: Bridge, e: Timed, id: Id)
    requires id in b.workloads && !(e.event.Dispatch? && e.event.id == id) && !e.event.Result?
    ensures id in Step(c, b, e).workloads && Changed(c, b, e, id, b.workloads[id], Step(c, b, e).workloads[id])
  {
    hide OnResult, Verify, SomeoneAvailable, IsExpired, Penalised, Praised, NewWorkload;
  }

  /** A known workload changes only by a claim while it is pending, a good result, a reject while it is not completed, a
      cleanup after its time, or another dispatch under its id; each sets just its own fields. */
  lemma {:induction false} WorkloadExactly(c: Codec, b: Bridge, e: Timed, id: Id)
    requires id in b.workloads && !(e.event.Dispatch? && e.event.id == id)
    ensures id in Step(c, b, e).workloads && Changed(c, b, e, id, b.workloads[id], Step(c, b, e).workloads[id])
  {
    hide Step, Changed;
    if e.event.Result? {
      ResultChanges(c, b, e, id);
    } else {
      OthersChange(c, b, e, id);
    }
  }

  /** A result is stored exactly when a good result comes in, with its sender's particulars, and leaves exactly when somebody
      asks for it, who then has it. */
  lemma {:induction false} ResultsExactly(c: Codec, b: Bridge, e: Timed, id: Id)
    ensures var b' := Step(c, b, e);
            && (GoodResultOf(c, b, e, id) ==>
                  id in b'.results && b'.results[id] == Record(e.event.msg.result, e.event.sender, e.event.msg.wallet, e.event.msg.elapsed, e.event.msg.key))
            && (e.event.Poll? && e.event.id == id && id in b.results ==> id !in b'.results && b'.handed == b.handed + [(id, b.results[id])])
            && (!GoodResultOf(c, b, e, id) && !(e.event.Poll? && e.event.id == id) ==>
                  (id in b'.results <==> id in b.results) && (id in b.results ==> b'.results[id] == b.results[id]))
            && ((!e.event.Poll? || e.event.id !in b.results) ==> b'.handed == b.handed)
  {
    hide Verify, SomeoneAvailable, IsExpired, Penalised, Praised, NewWorkload, ExpireAll;
  }

  /** With a blockchain each good result adds one reward, to the wallet of the message; nothing else adds any. */
  lemma {:induction false} RewardsExactly(c: Codec, b: Bridge, e: Timed)
    ensures Step(c, b, e).blockchain == b.blockchain
    ensures Step(c, b, e).rewards
         == if b.blockchain && e.event.Result? && GoodResultOf(c, b, e, e.event.msg.id)
            then var m := e.event.msg;
                 b.rewards + [Reward(m.id, m.key, b.workloads[m.id].data, b.workloads[m.id].kind, m.result, m.wallet, m.elapsed, m.proof, e.time)]
            else b.rewards
  {
    hide Verify, SomeoneAvailable, IsExpired, Penalised, Praised, NewWorkload, ExpireAll;
  }
}
