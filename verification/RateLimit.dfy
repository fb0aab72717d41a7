/** The sliding-window limiter in front of the message handlers: per sender it keeps the
    times of accepted messages, dropping those 60 seconds old or older at every check. */
module RateLimit {

  const WINDOW := 60.0
  const MSG_RATE_LIMIT := 100

  type Rates = map<string, seq<real>>

  function Prune(times: seq<real>, now: real): seq<real> {
    if times == [] then []
    else if now - times[0] < WINDOW then [times[0]] + Prune(times[1..], now)
    else Prune(times[1..], now)
  }

  function Times(rates: Rates, sender: string): seq<real> {
    if sender in rates then rates[sender] else []
  }

  /** The check as a function of the table: the new table and whether the message passes. */
  function Check(rates: Rates, sender: string, now: real): (Rates, bool) {
    var recent := Prune(Times(rates, sender), now);
    if |recent| >= MSG_RATE_LIMIT
    then (rates[sender := recent], false)
    else (rates[sender := recent + [now]], true)
  }

  // ----- the reference: the whole history, nothing pruned -----

  /** One message: who sent it, when the check ran, and whether it passed. */
  datatype Arrival = Arrival(sender: string, time: real)
  datatype Verdict = Verdict(sender: string, time: real, passed: bool)

  function InWindow(history: seq<Verdict>, sender: string, lo: real, hi: real): nat {
    if history == [] then 0
    else
      var v := history[0];
      (if v.passed && v.sender == sender && lo <= v.time < hi then 1 else 0) + InWindow(history[1..], sender, lo, hi)
  }

  /** Accepted messages of `sender` less than 60 seconds before `now`. */
  function Recent(history: seq<Verdict>, sender: string, now: real): nat {
    if history == [] then 0
    else
      var v := history[0];
      (if v.passed && v.sender == sender && now - v.time < 60.0 then 1 else 0) + Recent(history[1..], sender, now)
  }

  /** The limiter without pruning: refuse exactly when 100 recent messages are on record. */
  function Judge(history: seq<Verdict>, a: Arrival): seq<Verdict> {
    history + [Verdict(a.sender, a.time, Recent(history, a.sender, a.time) < 100)]
  }

  function JudgeAll(arrivals: seq<Arrival>): seq<Verdict> {
    if arrivals == [] then []
    else Judge(JudgeAll(arrivals[..|arrivals| - 1]), arrivals[|arrivals| - 1])
  }

  /** The limiter the node runs, on a whole run from the empty table. */
  function CheckAll(arrivals: seq<Arrival>): (Rates, seq<Verdict>) {
    if arrivals == [] then (map[], [])
    else
      var a := arrivals[|arrivals| - 1];
      var (rates, verdicts) := CheckAll(arrivals[..|arrivals| - 1]);
      var (rates', passed) := Check(rates, a.sender, a.time);
      (rates', verdicts + [Verdict(a.sender, a.time, passed)])
  }

  ghost predicate Nondecreasing(arrivals: seq<Arrival>) {
    forall i, j | 0 <= i < j < |arrivals| :: arrivals[i].time <= arrivals[j].time
  }

  // ----- refinement -----

  /** The times of `sender`'s accepted messages, oldest first. */
  function AcceptedTimes(history: seq<Verdict>, sender: string): seq<real> {
    if history == [] then []
    else if history[0].passed && history[0].sender == sender then [history[0].time] + AcceptedTimes(history[1..], sender)
    else AcceptedTimes(history[1..], sender)
  }

  lemma {:induction false} AcceptedTimesAppend(history: seq<Verdict>, v: Verdict, sender: string)
    ensures AcceptedTimes(history + [v], sender)
         == AcceptedTimes(history, sender) + (if v.passed && v.sender == sender then [v.time] else [])
  {
    if history == [] {
      assert history + [v] == [v];
    } else {
      assert (history + [v])[1..] == history[1..] + [v] && (history + [v])[0] == history[0];
      AcceptedTimesAppend(history[1..], v, sender);
    }
  }

  lemma {:induction false} PruneAppend(a: seq<real>, b: seq<real>, now: real)
    ensures Prune(a + b, now) == Prune(a, now) + Prune(b, now)
  {
    if a == [] {
      assert a + b == b;
    } else {
      assert (a + b)[1..] == a[1..] + b && (a + b)[0] == a[0];
      PruneAppend(a[1..], b, now);
    }
  }

  /** Pruning twice is pruning once, at the later time. */
  lemma {:induction false} PruneTwice(times: seq<real>, earlier: real, later: real)
    requires earlier <= later
    ensures Prune(Prune(times, earlier), later) == Prune(times, later)
  {
    if times != [] {
      PruneTwice(times[1..], earlier, later);
      var rest := Prune(times[1..], earlier);
      assert ([times[0]] + rest)[1..] == rest;
    }
  }

  lemma {:induction false} RecentIsPruned(history: seq<Verdict>, sender: string, now: real)
    ensures Recent(history, sender, now) == |Prune(AcceptedTimes(history, sender), now)|
  {
    if history != [] {
      RecentIsPruned(history[1..], sender, now);
      var rest := AcceptedTimes(history[1..], sender);
      assert ([history[0].time] + rest)[1..] == rest;
    }
  }

  /** What the table may have forgotten can no longer matter. */
  ghost predicate Tracks(rates: Rates, history: seq<Verdict>, now: real) {
    forall s: string, t: real :: now <= t ==> Prune(Times(rates, s), t) == Prune(AcceptedTimes(history, s), t)
  }

  lemma {:induction false} StepTracks(rates: Rates, history: seq<Verdict>, sender: string, before: real, now: real)
    requires before <= now && Tracks(rates, history, before)
    ensures var (rates', passed) := Check(rates, sender, now);
            && passed == (Recent(history, sender, now) < 100)
            && Tracks(rates', history + [Verdict(sender, now, passed)], now)
  {
    var (rates', passed) := Check(rates, sender, now);
    var v := Verdict(sender, now, passed);
    RecentIsPruned(history, sender, now);
    forall s: string, t: real | now <= t
      ensures Prune(Times(rates', s), t) == Prune(AcceptedTimes(history + [v], s), t)
    {
      AcceptedTimesAppend(history, v, s);
      assert Prune(Times(rates, s), t) == Prune(AcceptedTimes(history, s), t);
      if s == sender {
        PruneTwice(Times(rates, s), now, t);
        PruneAppend(Prune(Times(rates, s), now), [now], t);
        PruneAppend(AcceptedTimes(history, s), [now], t);
        assert AcceptedTimes(history, s) + [] == AcceptedTimes(history, s);
      }
    }
  }

  lemma {:induction false} RunTracks(arrivals: seq<Arrival>)
    requires Nondecreasing(arrivals)
    ensures CheckAll(arrivals).1 == JudgeAll(arrivals)
    ensures arrivals != [] ==> Tracks(CheckAll(arrivals).0, JudgeAll(arrivals), arrivals[|arrivals| - 1].time)
  {
    if arrivals != [] {
      var n := |arrivals| - 1;
      RunTracks(arrivals[..n]);
      var a := arrivals[n];
      var before := if n == 0 then a.time else arrivals[n - 1].time;
      StepTracks(CheckAll(arrivals[..n]).0, JudgeAll(arrivals[..n]), a.sender, before, a.time);
    }
  }

  /** The pruned list decides every message as the full history does: with a nondecreasing
      clock a message is refused exactly when 100 messages of its sender were accepted
      in the 60 seconds before it. */
  lemma {:induction false} PrunedListRefinesHistory(arrivals: seq<Arrival>, i: nat)
    requires Nondecreasing(arrivals) && i < |arrivals|
    ensures |CheckAll(arrivals).1| == |arrivals|
    ensures !CheckAll(arrivals).1[i].passed
            <==> Recent(CheckAll(arrivals).1[..i], arrivals[i].sender, arrivals[i].time) >= 100
  {
    RunTracks(arrivals);
    JudgedPrefix(arrivals, i);
    JudgedPrefix(arrivals, i + 1);
    JudgeLength(arrivals[..i]);
    var upTo := JudgeAll(arrivals[..i + 1]);
    assert arrivals[..i + 1][..i] == arrivals[..i];
    assert JudgeAll(arrivals)[..i + 1][i] == upTo[i];
  }

  /** Verdicts only depend on what came before. */
  lemma {:induction false} JudgedPrefix(arrivals: seq<Arrival>, i: nat)
    requires i <= |arrivals|
    ensures |JudgeAll(arrivals)| == |arrivals|
    ensures JudgeAll(arrivals)[..i] == JudgeAll(arrivals[..i])
  {
    var n := |arrivals| - 1;
    JudgeLength(arrivals);
    if i <= n {
      JudgedPrefix(arrivals[..n], i);
      assert arrivals[..n][..i] == arrivals[..i];
      assert JudgeAll(arrivals)[..i] == JudgeAll(arrivals[..n])[..i];
    } else {
      assert arrivals[..i] == arrivals;
    }
  }

  lemma {:induction false} JudgeLength(arrivals: seq<Arrival>)
    ensures |JudgeAll(arrivals)| == |arrivals|
    ensures forall i | 0 <= i < |arrivals| :: JudgeAll(arrivals)[i].sender == arrivals[i].sender && JudgeAll(arrivals)[i].time == arrivals[i].time
  {
    if arrivals != [] {
      JudgeLength(arrivals[..|arrivals| - 1]);
    }
  }

  // ----- windows -----

  lemma {:induction false} InWindowAppend(history: seq<Verdict>, v: Verdict, sender: string, lo: real, hi: real)
    ensures InWindow(history + [v], sender, lo, hi)
         == InWindow(history, sender, lo, hi) + (if v.passed && v.sender == sender && lo <= v.time < hi then 1 else 0)
  {
    if history == [] {
      assert history + [v] == [v];
    } else {
      InWindowAppend(history[1..], v, sender, lo, hi);
      assert (history + [v])[1..] == history[1..] + [v];
    }
  }

  lemma {:induction false} WindowWithinRecent(history: seq<Verdict>, sender: string, lo: real, now: real)
    requires now < lo + 60.0
    ensures InWindow(history, sender, lo, lo + 60.0) <= Recent(history, sender, now)
  {
    if history != [] {
      WindowWithinRecent(history[1..], sender, lo, now);
    }
  }

  /** Every half-open 60-second window holds at most 100 accepted messages of a sender. */
  lemma {:induction false} WindowBound(arrivals: seq<Arrival>, sender: string, lo: real)
    requires Nondecreasing(arrivals)
    ensures InWindow(CheckAll(arrivals).1, sender, lo, lo + 60.0) <= 100
  {
    if arrivals != [] {
      var n := |arrivals| - 1;
      var a := arrivals[n];
      WindowBound(arrivals[..n], sender, lo);
      RunTracks(arrivals);
      RunTracks(arrivals[..n]);
      var history := JudgeAll(arrivals[..n]);
      InWindowAppend(history, JudgeAll(arrivals)[n], sender, lo, lo + 60.0) by { JudgeLength(arrivals[..n]); }
      JudgeLength(arrivals[..n]);
      if a.time < lo + 60.0 {
        WindowWithinRecent(history, sender, lo, a.time);
      }
    }
  }

  // ----- senders do not affect each other -----

  function OnlyFrom(arrivals: seq<Arrival>, sender: string): seq<Arrival> {
    if arrivals == [] then []
    else
      var n := |arrivals| - 1;
      if arrivals[n].sender == sender then OnlyFrom(arrivals[..n], sender) + [arrivals[n]]
      else OnlyFrom(arrivals[..n], sender)
  }

  function VerdictsOn(history: seq<Verdict>, sender: string): seq<Verdict> {
    if history == [] then []
    else
      var n := |history| - 1;
      if history[n].sender == sender then VerdictsOn(history[..n], sender) + [history[n]]
      else VerdictsOn(history[..n], sender)
  }

  /** Dropping every other sender's messages changes nothing for this one: its row of the
      table and all its verdicts stay the same. No assumption on the clock. */
  lemma {:induction false} SendersAreIndependent(arrivals: seq<Arrival>, sender: string)
    ensures Times(CheckAll(arrivals).0, sender) == Times(CheckAll(OnlyFrom(arrivals, sender)).0, sender)
    ensures VerdictsOn(CheckAll(arrivals).1, sender) == CheckAll(OnlyFrom(arrivals, sender)).1
  {
    if arrivals != [] {
      var n := |arrivals| - 1;
      var a := arrivals[n];
      SendersAreIndependent(arrivals[..n], sender);
      var only := OnlyFrom(arrivals[..n], sender);
      assert (only + [a])[..|only|] == only;
      var was := CheckAll(arrivals[..n]).1;
      var now := CheckAll(arrivals).1;
      assert now[..|now| - 1] == was;
    }
  }
}
