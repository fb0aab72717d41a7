/** With cleanups often enough, every workload is decided in bounded time. */
module BoundedLife {
  import opened PopProof
  import opened Workloads

  ghost predicate CleanupWithin(events: seq<Timed>, t: real, d: real) {
    exists k :: 0 <= k < |events| && events[k].event.Cleanup? && t < events[k].time <= t + d
  }

  /** Between the first and the last event, cleanup runs in every stretch of `d` seconds. */
  ghost predicate CleanupEvery(events: seq<Timed>, d: real) {
    forall t: real :: events != [] && events[0].time <= t && t + d <= events[|events| - 1].time ==> CleanupWithin(events, t, d)
  }

  ghost function At(c: Codec, self: NodeId, chain: bool, events: seq<Timed>, i: nat): Bridge
    requires i <= |events|
  {
    After(c, Start(self, chain), events[..i])
  }

  /** When a workload on record was dispatched. */
  lemma {:induction false} DispatchMoment(c: Codec, self: NodeId, chain: bool, events: seq<Timed>, n: nat,
          id: Id) returns (j: nat)
    requires FreshIds(events) && n <= |events| && id in At(c, self, chain, events, n).workloads
    ensures j < n && id in At(c, self, chain, events, j + 1).workloads
    ensures events[j].time == At(c, self, chain, events, n).workloads[id].createdAt
    decreases n
  {
    var m := n - 1;
    assert events[..n][..m] == events[..m];
    if id in At(c, self, chain, events, m).workloads {
      j := DispatchMoment(c, self, chain, events, m, id);
      IdIsTaken(c, self, chain, events, m, id);
      StepAdvances(c, At(c, self, chain, events, m), events[m], id);
    } else {
      NewcomersAreDispatched(c, At(c, self, chain, events, m), events[m], id);
      j := m;
    }
  }

  /** When a claimed workload was claimed. */
  lemma {:induction false} ClaimMoment(c: Codec, self: NodeId, chain: bool, events: seq<Timed>, n: nat,
          id: Id) returns (j: nat)
    requires FreshIds(events) && n <= |events| && id in At(c, self, chain, events, n).workloads
    requires At(c, self, chain, events, n).workloads[id].status == Claimed
    ensures j < n && id in At(c, self, chain, events, j + 1).workloads && At(c, self, chain, events, j + 1).workloads[id].status == Claimed
    ensures events[j].time == At(c, self, chain, events, n).workloads[id].claimedAt
    decreases n
  {
    var m := n - 1;
    assert events[..n][..m] == events[..m];
    if id in At(c, self, chain, events, m).workloads {
      IdIsTaken(c, self, chain, events, m, id);
      StepAdvances(c, At(c, self, chain, events, m), events[m], id);
      if At(c, self, chain, events, m).workloads[id].status == Claimed {
        j := ClaimMoment(c, self, chain, events, m, id);
      } else {
        j := m;
      }
    } else {
      NewcomersAreDispatched(c, At(c, self, chain, events, m), events[m], id);
      assert false;
    }
  }

  lemma LaterAt(c: Codec, self: NodeId, chain: bool, events: seq<Timed>, i: nat, id: Id)
    requires FreshIds(events) && i <= |events| && id in At(c, self, chain, events, i).workloads
    ensures id in At(c, self, chain, events, |events|).workloads
    ensures Later(At(c, self, chain, events, i).workloads[id], At(c, self, chain, events, |events|).workloads[id])
  {
    NoWayBack(c, self, chain, events, i, id);
    assert events[..|events|] == events;
  }

  /** A cleanup that finds the workload expired settles it. */
  lemma CleanupSettles(c: Codec, self: NodeId, chain: bool, events: seq<Timed>, k: nat, id: Id)
    requires FreshIds(events) && k < |events| && events[k].event.Cleanup?
    requires id in At(c, self, chain, events, k).workloads && IsExpired(At(c, self, chain, events, k).workloads[id], events[k].time)
    ensures id in At(c, self, chain, events, |events|).workloads
    ensures Rank(At(c, self, chain, events, |events|).workloads[id].status) >= 2
  {
    assert events[..k + 1][..k] == events[..k];
    assert At(c, self, chain, events, k + 1) == OnCleanup(At(c, self, chain, events, k), events[k].time);
    LaterAt(c, self, chain, events, k + 1, id);
  }

  /** If the workload were still claimed, a cleanup more than 120 seconds after the claim would have ended it. */
  lemma ClaimEnds(c: Codec, self: NodeId, chain: bool, events: seq<Timed>, d: real, id: Id)
    requires FreshIds(events) && Ordered(events) && CleanupEvery(events, d) && forall i | 0 <= i < |events| :: events[i].time > 0.0
    requires id in At(c, self, chain, events, |events|).workloads && At(c, self, chain, events, |events|).workloads[id].status == Claimed
    ensures events[|events| - 1].time < At(c, self, chain, events, |events|).workloads[id].claimedAt + CLAIM_TIMEOUT + d
  {
    var end := At(c, self, chain, events, |events|).workloads[id];
    var j := ClaimMoment(c, self, chain, events, |events|, id);
    LaterAt(c, self, chain, events, j + 1, id);
    var due := end.claimedAt + CLAIM_TIMEOUT;
    if due + d <= events[|events| - 1].time {
      assert CleanupWithin(events, due, d);
      var k :| 0 <= k < |events| && events[k].event.Cleanup? && due < events[k].time <= due + d;
      StillThere(c, self, chain, events, j + 1, k, id);
      LaterAt(c, self, chain, events, k, id);
      CleanupSettles(c, self, chain, events, k, id);
    }
  }

  lemma StillThere(c: Codec, self: NodeId, chain: bool, events: seq<Timed>, i: nat, k: nat, id: Id)
    requires FreshIds(events) && i <= k <= |events| && id in At(c, self, chain, events, i).workloads
    ensures id in At(c, self, chain, events, k).workloads
    ensures Later(At(c, self, chain, events, i).workloads[id], At(c, self, chain, events, k).workloads[id])
  {
    assert events[..k][..i] == events[..i];
    NoWayBack(c, self, chain, events[..k], i, id);
  }

  /** If cleanup runs at least every `d` seconds, then 420 + 2d seconds after its dispatch a workload is
      neither pending nor claimed. */
  lemma {:induction false} DecidedInTime(c: Codec, self: NodeId, chain: bool, events: seq<Timed>, d: real, id: Id)
    requires FreshIds(events) && Ordered(events) && d >= 0.0 && CleanupEvery(events, d) && forall i | 0 <= i < |events| :: events[i].time > 0.0
    requires id in After(c, Start(self, chain), events).workloads
    requires events != [] && events[|events| - 1].time >= After(c, Start(self, chain), events).workloads[id].createdAt + 420.0 + 2.0 * d
    ensures var s := After(c, Start(self, chain), events).workloads[id].status; s != Pending && s != Claimed
  {
    hide After;
    assert events[..|events|] == events;
    var end := At(c, self, chain, events, |events|).workloads[id];
    var j := DispatchMoment(c, self, chain, events, |events|, id);
    var due := end.createdAt + PENDING_TIMEOUT;
    assert CleanupWithin(events, due, d);
    var k :| 0 <= k < |events| && events[k].event.Cleanup? && due < events[k].time <= due + d;
    StillThere(c, self, chain, events, j + 1, k, id);
    LaterAt(c, self, chain, events, k, id);
    var seen := At(c, self, chain, events, k).workloads[id];
    if seen.status == Pending {
      CleanupSettles(c, self, chain, events, k, id);
    } else if end.status == Claimed {
      var i := ClaimMoment(c, self, chain, events, k, id);
      ClaimEnds(c, self, chain, events, d, id);
    }
  }
}
