/** Where rewards and results come from: on every run each is traced back to the messages of the run. */
module RewardTrail {
  import opened Wrappers
  import opened PopProof
  import opened Workloads

  /** The result message that a reward is paid for, at the time it came in. */
  predicate PaysFor(r: Reward, e: Timed) {
    && e.event.Result? && e.time == r.time
    && e.event.msg.id == r.id && e.event.msg.key == r.key && e.event.msg.result == r.result
    && e.event.msg.wallet == r.wallet && e.event.msg.elapsed == r.elapsed && e.event.msg.proof == r.proof
  }

  /** The dispatch of the work that is paid for. */
  predicate Ordered(id: Id, data: Json, kind: string, e: Timed) {
    e.event.Dispatch? && e.event.id == id && e.event.data == data && e.event.kind == kind
  }

  /** The result message whose contents a record keeps. */
  predicate Keeps(id: Id, r: Record, e: Timed) {
    && e.event.Result? && e.event.msg.id == id && e.event.sender == r.minerNode
    && e.event.msg.result == r.result && e.event.msg.wallet == r.minerWallet
    && e.event.msg.elapsed == r.elapsed && e.event.msg.key == r.key
  }

  ghost predicate WasOrdered(events: seq<Timed>, id: Id, data: Json, kind: string) {
    exists j :: 0 <= j < |events| && Ordered(id, data, kind, events[j])
  }

  ghost predicate WasEarned(events: seq<Timed>, r: Reward) {
    exists i :: 0 <= i < |events| && PaysFor(r, events[i]) && WasOrdered(events[..i], r.id, r.data, r.kind)
  }

  ghost predicate WasSent(events: seq<Timed>, id: Id, r: Record) {
    exists i :: 0 <= i < |events| && Keeps(id, r, events[i])
  }

  /** Everything on record in `b` can be traced. */
  ghost predicate Traced(b: Bridge, events: seq<Timed>) {
    && (forall id | id in b.workloads :: WasOrdered(events, id, b.workloads[id].data, b.workloads[id].kind))
    && (forall r | r in b.rewards :: WasEarned(events, r))
    && (forall id | id in b.results :: WasSent(events, id, b.results[id]))
    && (forall h | h in b.handed :: WasSent(events, h.0, h.1))
  }

  lemma OneMoreEvent(events: seq<Timed>, e: Timed)
    ensures forall id, data, kind | WasOrdered(events, id, data, kind) :: WasOrdered(events + [e], id, data, kind)
    ensures forall r | WasEarned(events, r) :: WasEarned(events + [e], r)
    ensures forall id, r | WasSent(events, id, r) :: WasSent(events + [e], id, r)
  {
    var longer := events + [e];
    assert forall i | 0 <= i < |events| :: longer[i] == events[i] && longer[..i] == events[..i];
    forall id, data, kind | WasOrdered(events, id, data, kind)
      ensures WasOrdered(longer, id, data, kind)
    {
      var j :| 0 <= j < |events| && Ordered(id, data, kind, events[j]);
      assert Ordered(id, data, kind, longer[j]);
    }
    forall r | WasEarned(events, r)
      ensures WasEarned(longer, r)
    {
      var i :| 0 <= i < |events| && PaysFor(r, events[i]) && WasOrdered(events[..i], r.id, r.data, r.kind);
      assert PaysFor(r, longer[i]);
    }
    forall id, r | WasSent(events, id, r)
      ensures WasSent(longer, id, r)
    {
      var i :| 0 <= i < |events| && Keeps(id, r, events[i]);
      assert Keeps(id, r, longer[i]);
    }
  }

  lemma KnownKeepOrders(c: Codec, b: Bridge, e: Timed, id: Id)
    requires id in b.workloads && id in Step(c, b, e).workloads
    ensures var w := Step(c, b, e).workloads[id];
            Ordered(id, w.data, w.kind, e) || (w.data == b.workloads[id].data && w.kind == b.workloads[id].kind)
  {
    hide Verify, SomeoneAvailable, IsExpired, Penalised, Praised;
  }

  /** What a step can add. */
  lemma WorkloadsKeepOrders(c: Codec, b: Bridge, e: Timed, id: Id)
    requires id in Step(c, b, e).workloads
    ensures var w := Step(c, b, e).workloads[id];
            Ordered(id, w.data, w.kind, e) || (id in b.workloads && w.data == b.workloads[id].data && w.kind == b.workloads[id].kind)
  {
    if id !in b.workloads {
      hide Step;
      NewcomersAreDispatched(c, b, e, id);
    } else {
      KnownKeepOrders(c, b, e, id);
    }
  }

  lemma RewardsGrow(c: Codec, b: Bridge, e: Timed)
    ensures forall r | r in Step(c, b, e).rewards ::
              r in b.rewards || (PaysFor(r, e) && r.id in b.workloads && r.data == b.workloads[r.id].data && r.kind == b.workloads[r.id].kind)
  {
    hide Verify, SomeoneAvailable, IsExpired, Penalised, Praised, ExpireAll, NewWorkload;
  }

  lemma RecordsGrow(c: Codec, b: Bridge, e: Timed)
    ensures forall id | id in Step(c, b, e).results ::
              (id in b.results && Step(c, b, e).results[id] == b.results[id]) || Keeps(id, Step(c, b, e).results[id], e)
    ensures forall h | h in Step(c, b, e).handed :: h in b.handed || (h.0 in b.results && h.1 == b.results[h.0])
  {
    hide Verify, SomeoneAvailable, IsExpired, Penalised, Praised, ExpireAll, NewWorkload;
  }

  lemma StepIsTraced(c: Codec, b: Bridge, events: seq<Timed>, e: Timed)
    requires Traced(b, events)
    ensures Traced(Step(c, b, e), events + [e])
  {
    hide Step, WasOrdered, WasEarned, WasSent;
    var b', longer := Step(c, b, e), events + [e];
    OneMoreEvent(events, e);
    RewardsGrow(c, b, e);
    RecordsGrow(c, b, e);
    assert longer[|events|] == e && longer[..|events|] == events;
    forall id | id in b'.workloads
      ensures WasOrdered(longer, id, b'.workloads[id].data, b'.workloads[id].kind)
    {
      WorkloadsKeepOrders(c, b, e, id);
      LastIsOrdered(events, e, id, b'.workloads[id].data, b'.workloads[id].kind);
    }
    forall r | r in b'.rewards
      ensures WasEarned(longer, r)
    {
      LastIsEarned(events, e, r);
    }
    forall id, r
      ensures Keeps(id, r, e) ==> WasSent(longer, id, r)
    {
      LastIsSent(events, e, id, r);
    }
  }

  lemma LastIsOrdered(events: seq<Timed>, e: Timed, id: Id, data: Json, kind: string)
    ensures Ordered(id, data, kind, e) ==> WasOrdered(events + [e], id, data, kind)
  {
    assert (events + [e])[|events|] == e;
  }

  lemma LastIsEarned(events: seq<Timed>, e: Timed, r: Reward)
    ensures PaysFor(r, e) && WasOrdered(events, r.id, r.data, r.kind) ==> WasEarned(events + [e], r)
  {
    assert (events + [e])[|events|] == e && (events + [e])[..|events|] == events;
  }

  lemma LastIsSent(events: seq<Timed>, e: Timed, id: Id, r: Record)
    ensures Keeps(id, r, e) ==> WasSent(events + [e], id, r)
  {
    assert (events + [e])[|events|] == e;
  }

  /** On every run: each reward is paid to the wallet, for the result, key, time and proof of a result message that came in
      when it was paid, and for the data and kind of an earlier dispatch of that workload; each stored or handed-over
      record names the sender, wallet, time and key of a result message with its result. */
  lemma {:induction false} RunIsTraced(c: Codec, self: NodeId, chain: bool, events: seq<Timed>)
    ensures Traced(After(c, Start(self, chain), events), events)
  {
    hide Step, WasOrdered, WasEarned, WasSent;
    if events != [] {
      var n := |events| - 1;
      RunIsTraced(c, self, chain, events[..n]);
      StepIsTraced(c, After(c, Start(self, chain), events[..n]), events[..n], events[n]);
      assert events[..n] + [events[n]] == events;
    }
  }
}
