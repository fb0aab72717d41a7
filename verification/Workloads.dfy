/** The life of dispatched workloads: claimed, completed, failed or expired by messages and the clock,
    paid for, and handed to whoever waits for them. Each handler is one step (see `LockStep`). */
module Workloads {
  import opened Wrappers
  import opened PopProof

  type NodeId = string
  type Id = string

  const CLAIM_TIMEOUT := 120.0
  const PENDING_TIMEOUT := 300.0
  const FRESH_ANNOUNCE := 300.0
  const STALE_ANNOUNCE := 600.0

  datatype Status = Pending | Claimed | Completed | Failed | Expired

  datatype Workload = Workload(
    key: string, data: Json, kind: string, status: Status, claimedBy: Option<NodeId>,
    result: Option<Json>, createdAt: real, claimedAt: real, completedAt: real)

  datatype Peer = Peer(tflops: real, available: bool, active: int, maxConcurrent: int, lastAnnounce: real, reputation: real, completed: nat, failed: nat)

  /** What a waiter gets. */
  datatype Record = Record(result: Json, minerNode: NodeId, minerWallet: string, elapsed: real, key: string)

  /** One reward call to the blockchain, with the proof and the time it was accepted at. */
  datatype Reward = Reward(
    id: Id, key: string, data: Json, kind: string, result: Json, wallet: string, elapsed: real, proof: Proof, time: real)

  datatype Bridge = Bridge(
    self: NodeId,
    blockchain: bool,
    workloads: map<Id, Workload>,
    results: map<Id, Record>,
    peers: map<NodeId, Peer>,
    rewards: seq<Reward>,
    handed: seq<(Id, Record)>)

  /** A result message. */
  datatype ResultMsg = ResultMsg(id: Id, key: string, wallet: string, result: Json, elapsed: real, proof: Proof)

  datatype Event =
    | Announce(sender: NodeId, tflops: real, available: bool, active: int, maxConcurrent: int, reputation: real)
    | Dispatch(id: Id, key: string, data: Json, kind: string)
    | Claim(sender: NodeId, id: Id)
    | Result(sender: NodeId, msg: ResultMsg)
    | Reject(sender: NodeId, id: Id)
    | Cleanup
    | Poll(id: Id)

  datatype Timed = Timed(time: real, event: Event)

  // ----- peers -----

  predicate IsAvailable(p: Peer, now: real) {
    p.available && now - p.lastAnnounce < FRESH_ANNOUNCE && p.active < p.maxConcurrent && p.reputation > 0.3
  }

  predicate SomeoneAvailable(b: Bridge, now: real) {
    exists n :: n in b.peers && n != b.self && IsAvailable(b.peers[n], now)
  }

  function OnAnnounce(b: Bridge, sender: NodeId, tflops: real, available: bool, active: int, maxConcurrent: int,
          reputation: real, now: real): Bridge {
    b.(peers := b.peers[sender :=
      if sender in b.peers
      then b.peers[sender].(tflops := tflops, available := available, active := active, lastAnnounce := now)
      else Peer(tflops, available, active, maxConcurrent, now, reputation, 0, 0)])
  }

  function Penalised(peers: map<NodeId, Peer>, sender: NodeId, factor: real): map<NodeId, Peer> {
    if sender !in peers then peers
    else peers[sender := peers[sender].(reputation := peers[sender].reputation * factor, failed := peers[sender].failed + 1)]
  }

  function Raised(reputation: real): real {
    if reputation + 0.05 <= 1.0 then reputation + 0.05 else 1.0
  }

  function Praised(peers: map<NodeId, Peer>, sender: NodeId): map<NodeId, Peer> {
    if sender !in peers then peers
    else peers[sender := peers[sender].(reputation := Raised(peers[sender].reputation), completed := peers[sender].completed + 1)]
  }

  // ----- workloads -----

  function NewWorkload(key: string, data: Json, kind: string, now: real): Workload {
    Workload(key, data, kind, Pending, None, None, now, 0.0, 0.0)
  }

  /** `is_expired`: a claim is old after 120 seconds, an unclaimed workload after 300. */
  predicate IsExpired(w: Workload, now: real) {
    if w.status == Claimed && w.claimedAt > 0.0 then now - w.claimedAt > CLAIM_TIMEOUT
    else w.status == Pending && now - w.createdAt > PENDING_TIMEOUT
  }

  function OnDispatch(b: Bridge, id: Id, key: string, data: Json, kind: string, now: real): Bridge {
    if SomeoneAvailable(b, now) then b.(workloads := b.workloads[id := NewWorkload(key, data, kind, now)]) else b
  }

  function OnClaim(b: Bridge, sender: NodeId, id: Id, now: real): Bridge {
    if id !in b.workloads || b.workloads[id].status != Pending then b
    else b.(workloads := b.workloads[id := b.workloads[id].(status := Claimed, claimedBy := Some(sender), claimedAt := now)])
  }

  function Accept(b: Bridge, sender: NodeId, m: ResultMsg, now: real): Bridge
    requires m.id in b.workloads
  {
    var w := b.workloads[m.id];
    b.(workloads := b.workloads[m.id := w.(status := Completed, result := Some(m.result), completedAt := now)],
       results := b.results[m.id := Record(m.result, sender, m.wallet, m.elapsed, m.key)],
       rewards := if b.blockchain then b.rewards + [Reward(m.id, m.key, w.data, w.kind, m.result, m.wallet, m.elapsed, m.proof, now)] else b.rewards,
       peers := Praised(b.peers, sender))
  }

  function OnResult(c: Codec, b: Bridge, sender: NodeId, m: ResultMsg, now: real): Bridge {
    if m.id !in b.workloads || b.workloads[m.id].status == Completed then b
    else if !Verify(c, m.proof, b.workloads[m.id].data, m.result, m.wallet, now) then b.(peers := Penalised(b.peers, sender, 0.8))
    else Accept(b, sender, m, now)
  }

  function OnReject(b: Bridge, sender: NodeId, id: Id): Bridge {
    b.(workloads := if id in b.workloads && b.workloads[id].status != Completed
                    then b.workloads[id := b.workloads[id].(status := Failed)] else b.workloads,
       peers := Penalised(b.peers, sender, 0.9))
  }

  function ExpireAll(workloads: map<Id, Workload>, now: real): map<Id, Workload> {
    map id | id in workloads :: if IsExpired(workloads[id], now) then workloads[id].(status := Expired) else workloads[id]
  }

  function OnCleanup(b: Bridge, now: real): Bridge {
    b.(workloads := ExpireAll(b.workloads, now),
       peers := map n | n in b.peers && now - b.peers[n].lastAnnounce <= STALE_ANNOUNCE :: b.peers[n])
  }

  /** One look of a waiter: a stored result is taken out and handed over. */
  function OnPoll(b: Bridge, id: Id): Bridge {
    if id in b.results then b.(results := b.results - {id}, handed := b.handed + [(id, b.results[id])]) else b
  }

  function Step(c: Codec, b: Bridge, e: Timed): Bridge {
    match e.event
    case Announce(sender, tflops, available, active, maxConcurrent, reputation) =>
      OnAnnounce(b, sender, tflops, available, active, maxConcurrent, reputation, e.time)
    case Dispatch(id, key, data, kind) => OnDispatch(b, id, key, data, kind, e.time)
    case Claim(sender, id) => OnClaim(b, sender, id, e.time)
    case Result(sender, msg) => OnResult(c, b, sender, msg, e.time)
    case Reject(sender, id) => OnReject(b, sender, id)
    case Cleanup => OnCleanup(b, e.time)
    case Poll(id) => OnPoll(b, id)
  }

  function After(c: Codec, b: Bridge, events: seq<Timed>): Bridge {
    if events == [] then b
    else Step(c, After(c, b, events[..|events| - 1]), events[|events| - 1])
  }

  function Start(self: NodeId, blockchain: bool): Bridge {
    Bridge(self, blockchain, map[], map[], map[], [], [])
  }

  /** Workload ids are random: no dispatch reuses one. */
  ghost predicate FreshIds(events: seq<Timed>) {
    forall i, j | 0 <= i < j < |events| && events[i].event.Dispatch? && events[j].event.Dispatch? :: events[i].event.id != events[j].event.id
  }

  ghost predicate Ordered(events: seq<Timed>) {
    forall i, j | 0 <= i < j < |events| :: events[i].time <= events[j].time
  }

  // ----- no way back -----

  /** Pending, then claimed, then over, then completed. */
  function Rank(s: Status): nat {
    match s
    case Pending => 0
    case Claimed => 1
    case Failed => 2
    case Expired => 2
    case Completed => 3
  }

  /** The only changes a workload can go through. */
  ghost predicate Advances(w: Workload, w': Workload, now: real) {
    && w'.createdAt == w.createdAt && w'.data == w.data
    && (w' == w
        || (w.status == Pending && w'.status == Claimed && w'.claimedAt == now)
        || (w.status != Completed && w'.status == Failed)
        || (IsExpired(w, now) && w'.status == Expired)
        || (w.status != Completed && w'.status == Completed))
  }

  lemma ResultAdvances(c: Codec, b: Bridge, sender: NodeId, m: ResultMsg, now: real, id: Id)
    requires id in b.workloads
    ensures id in OnResult(c, b, sender, m, now).workloads && Advances(b.workloads[id], OnResult(c, b, sender, m, now).workloads[id], now)
  {
  }

  lemma ClaimAdvances(b: Bridge, sender: NodeId, id': Id, now: real, id: Id)
    requires id in b.workloads
    ensures id in OnClaim(b, sender, id', now).workloads && Advances(b.workloads[id], OnClaim(b, sender, id', now).workloads[id], now)
    ensures id in OnReject(b, sender, id').workloads && Advances(b.workloads[id], OnReject(b, sender, id').workloads[id], now)
  {
  }

  /** Nothing but the dispatch of its own id sets a workload back. */
  lemma StepAdvances(c: Codec, b: Bridge, e: Timed, id: Id)
    requires id in b.workloads && !(e.event.Dispatch? && e.event.id == id)
    ensures id in Step(c, b, e).workloads && Advances(b.workloads[id], Step(c, b, e).workloads[id], e.time)
  {
    match e.event
    case Result(sender, m) => ResultAdvances(c, b, sender, m, e.time, id);
    case Claim(sender, id') => ClaimAdvances(b, sender, id', e.time, id);
    case Reject(sender, id') => ClaimAdvances(b, sender, id', e.time, id);
    case Dispatch(_, _, _, _) =>
    case Announce(_, _, _, _, _, _) =>
    case Cleanup =>
    case Poll(_) =>
  }

  lemma NewcomersAreDispatched(c: Codec, b: Bridge, e: Timed, id: Id)
    requires id !in b.workloads && id in Step(c, b, e).workloads
    ensures e.event.Dispatch? && e.event.id == id && Step(c, b, e).workloads[id] == NewWorkload(e.event.key, e.event.data, e.event.kind, e.time)
  {
    hide Verify, SomeoneAvailable, IsExpired, Penalised, Praised;
  }

  ghost predicate Dispatched(events: seq<Timed>, id: Id) {
    exists i :: 0 <= i < |events| && events[i].event.Dispatch? && events[i].event.id == id
  }

  lemma {:induction false} KnownWasDispatched(c: Codec, self: NodeId, chain: bool, events: seq<Timed>, id: Id)
    requires id in After(c, Start(self, chain), events).workloads
    ensures Dispatched(events, id)
  {
    if events != [] {
      var n := |events| - 1;
      if id in After(c, Start(self, chain), events[..n]).workloads {
        KnownWasDispatched(c, self, chain, events[..n], id);
        var i :| 0 <= i < n && events[..n][i].event.Dispatch? && events[..n][i].event.id == id;
        assert events[i].event.Dispatch? && events[i].event.id == id;
      } else {
        NewcomersAreDispatched(c, After(c, Start(self, chain), events[..n]), events[n], id);
      }
    }
  }

  /** What a workload can have become at any later moment. */
  ghost predicate Later(w: Workload, w': Workload) {
    && Rank(w.status) <= Rank(w'.status) && w'.createdAt == w.createdAt && w'.data == w.data
    && (w.status == Completed ==> w' == w)
    && (w.status == Claimed && w'.status == Claimed ==> w' == w)
  }

  lemma LaterThenAdvances(w: Workload, w': Workload, w'': Workload, now: real)
    requires Later(w, w') && Advances(w', w'', now)
    ensures Later(w, w'')
  {
  }

  /** Over any later part of a run a workload never gets a lower rank, so none returns to pending or
      claimed after leaving them, and `completed` is absorbing. */
  lemma {:induction false} NoWayBack(c: Codec, self: NodeId, chain: bool, events: seq<Timed>, i: nat, id: Id)
    requires FreshIds(events) && i <= |events|
    requires id in After(c, Start(self, chain), events[..i]).workloads
    ensures id in After(c, Start(self, chain), events).workloads
    ensures Later(After(c, Start(self, chain), events[..i]).workloads[id], After(c, Start(self, chain), events).workloads[id])
    decreases |events|
  {
    if i == |events| {
      assert events[..i] == events;
    } else {
      hide Step, Advances;
      var n := |events| - 1;
      assert events[..n][..i] == events[..i];
      NoWayBack(c, self, chain, events[..n], i, id);
      IdIsTaken(c, self, chain, events, i, id);
      var before := After(c, Start(self, chain), events[..n]);
      StepAdvances(c, before, events[n], id);
      LaterThenAdvances(After(c, Start(self, chain), events[..i]).workloads[id], before.workloads[id], After(c, Start(self, chain), events).workloads[id], events[n].time);
    }
  }

  /** The id of a workload on record is not dispatched again. */
  lemma {:induction false} IdIsTaken(c: Codec, self: NodeId, chain: bool, events: seq<Timed>, i: nat, id: Id)
    requires FreshIds(events) && i <= |events| && id in After(c, Start(self, chain), events[..i]).workloads
    ensures forall k | i <= k < |events| :: !(events[k].event.Dispatch? && events[k].event.id == id)
  {
    KnownWasDispatched(c, self, chain, events[..i], id);
    var j :| 0 <= j < i && events[..i][j].event.Dispatch? && events[..i][j].event.id == id;
    assert events[j].event.Dispatch? && events[j].event.id == id;
  }
}
