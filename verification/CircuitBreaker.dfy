/** The circuit breaker around the daemon's AI calls, over whole runs. The loop that makes the calls has one
    at a time in progress; a reset by hand may come from another thread at any moment, also during a call. */
module CircuitBreaker {
  import opened Wrappers

  const COOL_DOWN := 300.0
  const RECENT := 300.0
  const TOO_MANY := 5

  datatype Breaker = Breaker(failures: nat, lastSuccess: real, tripped: bool, resetTime: real)

  function New(now: real): Breaker {
    Breaker(0, now, false, now + COOL_DOWN)
  }

  /** What the guard in front of a call says. */
  datatype Verdict = Blocked | Trips | Starts

  /** A call: blocked while tripped; after the cool-down the count starts again; five failures with a
      success in the last five minutes trip. */
  function Gate(b: Breaker, now: real): (Breaker, Verdict) {
    if b.tripped && now < b.resetTime then (b, Blocked)
    else
      var c := if b.tripped then b.(tripped := false, failures := 0) else b;
      if c.failures >= TOO_MANY && now - c.lastSuccess < RECENT then (c.(tripped := true, resetTime := now + COOL_DOWN), Trips)
      else (c, Starts)
  }

  /** How a call that the guard let through ends: with an answer, with an answer that then cannot be
      logged, with no answer, or with an exception anywhere before the answer. */
  datatype Ending = Answered | AnsweredNotLogged | Empty | Raised

  /** A success is dated back to the start of its call. */
  function Finish(b: Breaker, start: real, e: Ending): Breaker {
    match e
    case Answered => b.(failures := 0, lastSuccess := start)
    case AnsweredNotLogged => b.(failures := 1, lastSuccess := start)
    case Empty => b.(failures := b.failures + 1)
    case Raised => b.(failures := b.failures + 1)
  }

  function ParseFailed(b: Breaker): Breaker {
    b.(failures := b.failures + 1)
  }

  function ManualReset(b: Breaker, now: real): Breaker {
    b.(failures := 0, tripped := false, lastSuccess := now)
  }

  class Daemon {
    var aiCallFailures: nat
    var lastAiSuccess: real
    var circuitBreakerTripped: bool
    var circuitBreakerResetTime: real

    function State(): Breaker
      reads this
    {
      Breaker(aiCallFailures, lastAiSuccess, circuitBreakerTripped, circuitBreakerResetTime)
    }

    constructor (now: real)
      ensures State() == New(now)
    {
      aiCallFailures, lastAiSuccess := 0, now;
      circuitBreakerTripped, circuitBreakerResetTime := false, now + COOL_DOWN;
    }

    method ResetCircuitBreaker(now: real)
      modifies this
      ensures State() == ManualReset(old(State()), now)
    {
      aiCallFailures := 0;
      circuitBreakerTripped := false;
      lastAiSuccess := now;
    }

    /** The first half of a call, up to the request. */
    method BeginCall(now: real) returns (verdict: Verdict)
      modifies this
      ensures (State(), verdict) == Gate(old(State()), now)
    {
      if circuitBreakerTripped {
        if now < circuitBreakerResetTime {
          return Blocked;
        }
        circuitBreakerTripped := false;
        aiCallFailures := 0;
      }
      if aiCallFailures >= TOO_MANY {
        if now - lastAiSuccess < RECENT {
          circuitBreakerTripped := true;
          circuitBreakerResetTime := now + COOL_DOWN;
          return Trips;
        }
      }
      return Starts;
    }

    /** The second half, with what the service did. */
    method EndCall(start: real, ending: Ending) returns (answered: bool)
      modifies this
      ensures State() == Finish(old(State()), start, ending) && answered == ending.Answered?
    {
      if ending.Answered? || ending.AnsweredNotLogged? {
        aiCallFailures := 0;
        lastAiSuccess := start;
      }
      if !ending.Answered? {
        aiCallFailures := aiCallFailures + 1;
      }
      answered := ending.Answered?;
    }

    method CountParseFailure()
      modifies this
      ensures State() == ParseFailed(old(State()))
    {
      aiCallFailures := aiCallFailures + 1;
    }
  }

  // ----- runs -----

  datatype Event = Begin | End(ending: Ending) | BadAnswer | Reset

  datatype Timed = Timed(time: real, event: Event)

  /** What happened, with the time it counts for. */
  datatype Entry =
    | Trip(time: real)
    | Reopened(time: real)
    | Call(time: real)
    | Failure(time: real)
    | Success(time: real)
    | ByHand(time: real)

  /** The breaker, when the call in progress started, and the log. */
  datatype Run = Run(breaker: Breaker, inProgress: Option<real>, log: seq<Entry>)

  /** A begin during a call or an end without one does not happen; it changes nothing. */
  function Step(r: Run, e: Timed): Run {
    match e.event
    case Begin =>
      if r.inProgress.Some? then r
      else
        var (b, verdict) := Gate(r.breaker, e.time);
        match verdict {
          case Blocked => r.(breaker := b)
          case Trips => r.(breaker := b, log := r.log + [Trip(e.time)])
          case Starts => r.(breaker := b, inProgress := Some(e.time), log := AfterCoolDown(r, e.time) + [Call(e.time)])
        }
    case End(ending) =>
      if r.inProgress.None? then r
      else
        var start := r.inProgress.value;
        Run(Finish(r.breaker, start, ending), None, r.log + EndEntries(start, ending, e.time))
    case BadAnswer => r.(breaker := ParseFailed(r.breaker), log := r.log + [Failure(e.time)])
    case Reset => r.(breaker := ManualReset(r.breaker, e.time), log := r.log + [ByHand(e.time)])
  }

  /** A call that starts while the breaker is tripped ends the cool-down. */
  function AfterCoolDown(r: Run, now: real): seq<Entry> {
    if r.breaker.tripped then r.log + [Reopened(now)] else r.log
  }

  function EndEntries(start: real, e: Ending, now: real): seq<Entry> {
    match e
    case Answered => [Success(start)]
    case AnsweredNotLogged => [Success(start), Failure(now)]
    case Empty => [Failure(now)]
    case Raised => [Failure(now)]
  }

  function After(start: real, events: seq<Timed>): Run {
    if events == [] then Run(New(start), None, [])
    else Step(After(start, events[..|events| - 1]), events[|events| - 1])
  }

  ghost predicate Ordered(start: real, events: seq<Timed>) {
    && (forall i | 0 <= i < |events| :: start <= events[i].time)
    && (forall i, j | 0 <= i < j < |events| :: events[i].time <= events[j].time)
  }

  // ----- what has happened since the last trip -----

  /** The position of the last trip, or -1. */
  function LastTrip(log: seq<Entry>): (i: int)
    ensures -1 <= i < |log| && (i >= 0 ==> log[i].Trip?) && forall k | i < k < |log| :: !log[k].Trip?
  {
    if log == [] then -1
    else if log[|log| - 1].Trip? then |log| - 1
    else LastTrip(log[..|log| - 1])
  }

  function Failures(log: seq<Entry>, from: nat): nat {
    if |log| <= from then 0
    else if log[|log| - 1].Failure? then Failures(log[..|log| - 1], from) + 1
    else Failures(log[..|log| - 1], from)
  }

  /** A success or a reset by hand after position `i`, dated no earlier than the entry there. */
  ghost predicate Recovered(log: seq<Entry>, i: nat) {
    exists k :: i < k < |log| && (log[k].Success? || log[k].ByHand?) && log[k].time >= log[i].time
  }

  ghost predicate TouchedByHand(log: seq<Entry>, i: nat) {
    exists k :: i < k < |log| && log[k].ByHand?
  }

  /** What the state says about the log. */
  ghost predicate Sound(r: Run, now: real) {
    && (forall k | 0 <= k < |r.log| :: r.log[k].time <= now)
    && (r.inProgress.Some? ==> r.inProgress.value <= now && !r.breaker.tripped)
    && (r.breaker.tripped ==> LastTrip(r.log) >= 0) && r.breaker.lastSuccess <= now
    && (LastTrip(r.log) >= 0 ==> SinceTrip(r.breaker, r.log, LastTrip(r.log), now))
  }

  ghost predicate SinceTrip(b: Breaker, log: seq<Entry>, i: nat, now: real)
    requires i < |log|
  {
    && (b.tripped ==> !TouchedByHand(log, i) && b.resetTime == log[i].time + 300.0)
    && (!b.tripped ==> b.failures <= Failures(log, i + 1) && (TouchedByHand(log, i) || now >= log[i].time + 300.0))
    && (Recovered(log, i) || b.lastSuccess <= log[i].time) && (TouchedByHand(log, i) ==> Recovered(log, i))
  }

  /** The two promises about one entry, given the log before it. */
  ghost predicate Kept(before: seq<Entry>, entry: Entry) {
    var i := LastTrip(before);
    i >= 0 ==>
      && (entry.Trip? ==> Failures(before, i + 1) >= 5 && Recovered(before, i))
      && (entry.Call? && !TouchedByHand(before, i) ==> entry.time >= before[i].time + 300.0)
      && (entry.Trip? ==> entry.time >= before[i].time)
  }

  ghost predicate AllKept(log: seq<Entry>) {
    log == [] || (AllKept(log[..|log| - 1]) && Kept(log[..|log| - 1], log[|log| - 1]))
  }

  /** A further entry that is no trip. */
  lemma {:induction false} OneMoreEntry(log: seq<Entry>, entry: Entry)
    requires !entry.Trip?
    ensures LastTrip(log + [entry]) == LastTrip(log)
    ensures var i := LastTrip(log);
            i >= 0 ==>
              && Failures(log + [entry], i + 1) == Failures(log, i + 1) + (if entry.Failure? then 1 else 0)
              && (TouchedByHand(log + [entry], i) <==> TouchedByHand(log, i) || entry.ByHand?)
              && (Recovered(log + [entry], i) <==> Recovered(log, i) || ((entry.Success? || entry.ByHand?) && entry.time >= log[i].time))
    ensures !entry.Call? && AllKept(log) ==> AllKept(log + [entry])
  {
  }

  lemma {:induction false} NewTrip(log: seq<Entry>, time: real)
    ensures LastTrip(log + [Trip(time)]) == |log| && Failures(log + [Trip(time)], |log| + 1) == 0
    ensures !TouchedByHand(log + [Trip(time)], |log|)
    ensures AllKept(log) && Kept(log, Trip(time)) ==> AllKept(log + [Trip(time)])
  {
  }

  lemma BeginKeeps(r: Run, now: real)
    requires Sound(r, now) && AllKept(r.log)
    ensures Sound(Step(r, Timed(now, Begin)), now) && AllKept(Step(r, Timed(now, Begin)).log)
  {
    hide LastTrip, Failures, TouchedByHand, Recovered, AllKept;
    var i := LastTrip(r.log);
    if r.inProgress.None? {
      match Gate(r.breaker, now).1 {
        case Blocked =>
        case Trips =>
          NewTrip(r.log, now);
        case Starts =>
          var log := AfterCoolDown(r, now);
          if r.breaker.tripped {
            OneMoreEntry(r.log, Reopened(now));
          }
          OneMoreEntry(log, Call(now));
          OneMoreKept(log, Call(now));
      }
    }
  }

  lemma {:induction false} OneMoreKept(log: seq<Entry>, entry: Entry)
    requires AllKept(log) && Kept(log, entry)
    ensures AllKept(log + [entry])
  {
  }

  lemma SuccessKeeps(r: Run, now: real)
    requires Sound(r, now) && AllKept(r.log) && r.inProgress.Some?
    ensures var start := r.inProgress.value;
            var r' := Run(r.breaker.(failures := 0, lastSuccess := start), None, r.log + [Success(start)]);
            Sound(r', now) && AllKept(r'.log)
  {
  }

  lemma FailureKeeps(r: Run, now: real)
    requires Sound(r, now) && AllKept(r.log)
    ensures var r' := Run(r.breaker.(failures := r.breaker.failures + 1), r.inProgress, r.log + [Failure(now)]);
            Sound(r', now) && AllKept(r'.log)
  {
    hide LastTrip, Failures, TouchedByHand, Recovered, AllKept;
    OneMoreEntry(r.log, Failure(now));
  }

  lemma ResetKeeps(r: Run, now: real)
    requires Sound(r, now) && AllKept(r.log)
    ensures Sound(Step(r, Timed(now, Reset)), now) && AllKept(Step(r, Timed(now, Reset)).log)
  {
    hide LastTrip, Failures, TouchedByHand, Recovered, AllKept;
    OneMoreEntry(r.log, ByHand(now));
  }

  lemma EndKeeps(r: Run, ending: Ending, now: real)
    requires Sound(r, now) && AllKept(r.log)
    ensures Sound(Step(r, Timed(now, End(ending))), now) && AllKept(Step(r, Timed(now, End(ending))).log)
  {
    hide Sound, AllKept;
    if r.inProgress.Some? {
      var start := r.inProgress.value;
      var quiet := r.(inProgress := None);
      QuietIsSound(r, now);
      match ending {
        case Answered => SuccessKeeps(r, now);
        case AnsweredNotLogged =>
          SuccessKeeps(r, now);
          FailureKeeps(Run(r.breaker.(failures := 0, lastSuccess := start), None, r.log + [Success(start)]), now);
          assert r.log + [Success(start)] + [Failure(now)] == r.log + [Success(start), Failure(now)];
        case Empty => FailureKeeps(quiet, now);
        case Raised => FailureKeeps(quiet, now);
      }
    }
  }

  lemma QuietIsSound(r: Run, now: real)
    requires Sound(r, now)
    ensures Sound(r.(inProgress := None), now)
  {
  }

  lemma StepKeeps(r: Run, e: Timed)
    requires Sound(r, e.time) && AllKept(r.log)
    ensures Sound(Step(r, e), e.time) && AllKept(Step(r, e).log)
  {
    hide Sound, AllKept;
    match e.event
    case Begin => BeginKeeps(r, e.time);
    case End(ending) => EndKeeps(r, ending, e.time);
    case BadAnswer => FailureKeeps(r, e.time);
    case Reset => ResetKeeps(r, e.time);
  }

  lemma TimePasses(r: Run, now: real, later: real)
    requires Sound(r, now) && now <= later
    ensures Sound(r, later)
  {
  }

  lemma {:induction false} RunIsSound(start: real, events: seq<Timed>)
    requires Ordered(start, events)
    ensures Sound(After(start, events), if events == [] then start else events[|events| - 1].time) && AllKept(After(start, events).log)
  {
    hide Sound, AllKept, Step;
    if events == [] {
      StartIsSound(start);
    } else {
      var n := |events| - 1;
      RunIsSound(start, events[..n]);
      TimePasses(After(start, events[..n]), if n == 0 then start else events[n - 1].time, events[n].time);
      StepKeeps(After(start, events[..n]), events[n]);
    }
  }

  lemma StartIsSound(start: real)
    ensures Sound(Run(New(start), None, []), start) && AllKept([])
  {
  }

  // ----- the promises, for any two entries of a run -----

  lemma {:induction false} KeptAt(log: seq<Entry>, j: nat)
    requires AllKept(log) && j < |log|
    ensures Kept(log[..j], log[j]) && AllKept(log[..j])
    decreases |log|
  {
    hide Kept;
    var n := |log| - 1;
    if j < n {
      KeptAt(log[..n], j);
      assert log[..n][..j] == log[..j];
    }
  }

  lemma {:induction false} TripsInOrder(log: seq<Entry>, i: nat, j: nat)
    requires AllKept(log) && i < j < |log| && log[i].Trip? && log[j].Trip?
    ensures log[i].time <= log[j].time
    decreases j
  {
    KeptAt(log, j);
    var l := LastTrip(log[..j]);
    assert log[..j][i].Trip?;
    if i < l {
      TripsInOrder(log, i, l);
    }
  }

  lemma {:induction false} FailuresOnlyGrow(log: seq<Entry>, a: nat, b: nat, n: nat)
    requires a <= b && n <= |log|
    ensures Failures(log[..n], b) <= Failures(log[..n], a)
    decreases n
  {
    if n > 0 {
      FailuresOnlyGrow(log, a, b, n - 1);
      assert log[..n][..n - 1] == log[..n - 1];
    }
  }

  /** Between any two trips: at least five counted failures, and a success or a reset by hand dated no
      earlier than the first of the two. */
  lemma {:induction false} TripsAreEarned(start: real, events: seq<Timed>, i: nat, j: nat)
    requires Ordered(start, events)
    requires var log := After(start, events).log; i < j < |log| && log[i].Trip? && log[j].Trip?
    ensures var log := After(start, events).log; Failures(log[..j], i + 1) >= 5 && Recovered(log[..j], i)
  {
    hide After, LastTrip, Failures, AllKept, Sound;
    var log := After(start, events).log;
    RunIsSound(start, events);
    KeptAt(log, j);
    var l := LastTrip(log[..j]);
    assert log[..j][i].Trip?;
    FailuresOnlyGrow(log, i + 1, l + 1, j);
    if i < l {
      TripsInOrder(log, i, l);
    }
    var k :| l < k < j && (log[..j][k].Success? || log[..j][k].ByHand?) && log[..j][k].time >= log[..j][l].time;
    assert log[..j][k].time >= log[..j][i].time;
  }

  lemma TouchedSince(log: seq<Entry>, i: nat, l: nat)
    requires i <= l && TouchedByHand(log, l)
    ensures TouchedByHand(log, i)
  {
  }

  /** After a trip no AI call starts for 300 seconds, unless the breaker was reset by hand since. */
  lemma {:induction false} NoCallDuringCoolDown(start: real, events: seq<Timed>, i: nat, j: nat)
    requires Ordered(start, events)
    requires var log := After(start, events).log; i < j < |log| && log[i].Trip? && log[j].Call? && !TouchedByHand(log[..j], i)
    ensures var log := After(start, events).log; log[j].time >= log[i].time + 300.0
  {
    hide After;
    var log := After(start, events).log;
    RunIsSound(start, events);
    KeptAt(log, j);
    var l := LastTrip(log[..j]);
    assert log[..j][i].Trip?;
    if i < l {
      TripsInOrder(log, i, l);
    }
    if TouchedByHand(log[..j], l) {
      TouchedSince(log[..j], i, l);
    }
  }

  /** Between two trips there is a success or a reset by hand. */
  lemma {:induction false} TripsNeedRecovery(start: real, events: seq<Timed>, i: nat, j: nat)
    requires Ordered(start, events)
    requires var log := After(start, events).log;
             i < j < |log| && log[i].Trip? && log[j].Trip?
    ensures exists k :: i < k < j && Recovers(After(start, events).log[k])
  {
    hide After, LastTrip, Failures;
    TripsAreEarned(start, events, i, j);
    var log := After(start, events).log;
    var k :| i < k < |log[..j]| && (log[..j][k].Success? || log[..j][k].ByHand?);
    assert Recovers(log[k]);
  }

  predicate Recovers(entry: Entry) {
    entry.Success? || entry.ByHand?
  }

  // ----- what the next call meets, from the log alone -----

  /** Failures counted since the last success, reset by hand or end of a cool-down. */
  function Counted(log: seq<Entry>): nat {
    if log == [] then 0
    else
      match log[|log| - 1]
      case Failure(_) => Counted(log[..|log| - 1]) + 1
      case Success(_) => 0
      case ByHand(_) => 0
      case Reopened(_) => 0
      case _ => Counted(log[..|log| - 1])
  }

  /** The date of the last success or reset by hand, or of the start. */
  function LastGood(start: real, log: seq<Entry>): real {
    if log == [] then start
    else if Recovers(log[|log| - 1]) then log[|log| - 1].time
    else LastGood(start, log[..|log| - 1])
  }

  /** The time of the trip that is still in effect. */
  function InEffect(log: seq<Entry>): Option<real> {
    if log == [] then None
    else
      match log[|log| - 1]
      case Trip(time) => Some(time)
      case ByHand(_) => None
      case Reopened(_) => None
      case _ => InEffect(log[..|log| - 1])
  }

  /** The state is what the log says it is. */
  ghost predicate Exact(start: real, r: Run) {
    && r.breaker.failures == Counted(r.log) && r.breaker.lastSuccess == LastGood(start, r.log)
    && (r.breaker.tripped <==> InEffect(r.log).Some?)
    && (r.breaker.tripped ==> r.breaker.resetTime == InEffect(r.log).value + 300.0)
    && (r.inProgress.Some? ==> !r.breaker.tripped)
  }

  lemma {:induction false} Appended(start: real, log: seq<Entry>, entry: Entry)
    ensures Counted(log + [entry]) == if entry.Failure? then Counted(log) + 1 else if Recovers(entry) || entry.Reopened? then 0 else Counted(log)
    ensures LastGood(start, log + [entry]) == if Recovers(entry) then entry.time else LastGood(start, log)
    ensures InEffect(log + [entry]) == if entry.Trip? then Some(entry.time) else if entry.ByHand? || entry.Reopened? then None else InEffect(log)
  {
    assert (log + [entry])[..|log|] == log;
  }

  lemma StepIsExact(start: real, r: Run, e: Timed)
    requires Exact(start, r)
    ensures Exact(start, Step(r, e))
  {
    hide Counted, LastGood, InEffect;
    match e.event
    case Begin =>
      Appended(start, r.log, Trip(e.time));
      Appended(start, r.log, Reopened(e.time));
      Appended(start, AfterCoolDown(r, e.time), Call(e.time));
    case End(ending) =>
      Appended(start, r.log, Failure(e.time));
      if r.inProgress.Some? {
        var success := Success(r.inProgress.value);
        Appended(start, r.log, success);
        Appended(start, r.log + [success], Failure(e.time));
        assert r.log + [success, Failure(e.time)] == r.log + [success] + [Failure(e.time)];
      }
    case BadAnswer => Appended(start, r.log, Failure(e.time));
    case Reset => Appended(start, r.log, ByHand(e.time));
  }

  lemma {:induction false} RunIsExact(start: real, events: seq<Timed>)
    ensures Exact(start, After(start, events))
  {
    hide Exact, Step;
    if events == [] {
      StartIsExact(start);
    } else {
      RunIsExact(start, events[..|events| - 1]);
      StepIsExact(start, After(start, events[..|events| - 1]), events[|events| - 1]);
    }
  }

  lemma StartIsExact(start: real)
    ensures Exact(start, Run(New(start), None, []))
  {
  }

  /** On every run, what a begin does with no call in progress: it is blocked exactly in the 300 seconds after a
      trip that no reset by hand has undone; it trips exactly if no trip is in effect, at least five failures were
      counted since the last success, reset or end of a cool-down, and the last success or reset is dated
      less than 300 seconds back; in all other cases a call starts. */
  lemma {:induction false} BeginDoesExactly(start: real, events: seq<Timed>, now: real)
    requires After(start, events).inProgress.None?
    ensures var r := After(start, events);
            var verdict := Gate(r.breaker, now).1;
            && (verdict.Blocked? <==> InEffect(r.log).Some? && now < InEffect(r.log).value + 300.0)
            && (verdict.Trips? <==> InEffect(r.log).None? && Counted(r.log) >= 5 && now - LastGood(start, r.log) < 300.0)
            && (verdict.Trips? <==> Step(r, Timed(now, Begin)).log == r.log + [Trip(now)])
            && (verdict.Starts? <==> Step(r, Timed(now, Begin)).inProgress.Some?)
  {
    hide After, Counted, LastGood, InEffect;
    RunIsExact(start, events);
    var r := After(start, events);
    assert (r.log + [Trip(now)])[|r.log|] != (r.log + [Call(now)])[|r.log|];
  }

  // ----- an outage -----

  /** Nothing good happened after position `i`. */
  ghost predicate Outage(log: seq<Entry>, i: nat) {
    i < |log| && log[i].Trip? && forall k | i < k < |log| :: !Recovers(log[k])
  }

  lemma {:induction false} TripStaysLast(start: real, events: seq<Timed>, i: nat)
    requires Ordered(start, events) && Outage(After(start, events).log, i)
    ensures LastTrip(After(start, events).log) == i
  {
    hide After, Failures;
    var log := After(start, events).log;
    var l := LastTrip(log);
    if i < l {
      TripsNeedRecovery(start, events, i, l);
    }
  }

  /** After a trip with no success and no reset by hand since, every begin before the end of the cool-down is
      blocked and every later one starts a call, however many calls have failed by then: the breaker
      does not trip again. */
  lemma {:induction false} OutageTripsOnce(start: real, events: seq<Timed>, i: nat, now: real)
    requires Ordered(start, events) && (forall k | 0 <= k < |events| :: events[k].time <= now)
    requires After(start, events).inProgress.None? && Outage(After(start, events).log, i)
    ensures var r := After(start, events);
            Gate(r.breaker, now).1 == if now < r.log[i].time + 300.0 then Blocked else Starts
  {
    hide After, Failures, AllKept, LastTrip;
    var r := After(start, events);
    StartOfRun(start);
    RunIsSound(start, events);
    TimePasses(r, events[|events| - 1].time, now);
    TripStaysLast(start, events, i);
    assert !TouchedByHand(r.log, i) && !Recovered(r.log, i);
  }

  /** Five failed calls and a trip one second after the start, then `n` failed calls. */
  function LongOutage(n: nat): seq<Timed> {
    if n == 0 then FailedCalls(1.0, 5) + [Timed(1.0, Begin)] else LongOutage(n - 1) + [Timed(301.0, Begin)] + [Timed(301.0, End(Raised))]
  }

  function FailedCalls(time: real, n: nat): seq<Timed> {
    if n == 0 then [] else FailedCalls(time, n - 1) + [Timed(time, Begin)] + [Timed(time, End(Raised))]
  }

  lemma {:induction false} AfterOne(start: real, events: seq<Timed>, e: Timed)
    ensures After(start, events + [e]) == Step(After(start, events), e)
  {
    assert (events + [e])[..|events|] == events;
  }

  lemma {:induction false} FailedCallsCount(n: nat)
    requires n <= 5
    ensures After(0.0, FailedCalls(1.0, n)).breaker == New(0.0).(failures := n)
    ensures var r := After(0.0, FailedCalls(1.0, n)); r.inProgress.None? && |r.log| == 2 * n && LastTrip(r.log) == -1
  {
    hide After, LastTrip;
    if n == 0 {
      StartOfRun(0.0);
    } else {
      FailedCallsCount(n - 1);
      AfterOne(0.0, FailedCalls(1.0, n - 1), Timed(1.0, Begin));
      AfterOne(0.0, FailedCalls(1.0, n - 1) + [Timed(1.0, Begin)], Timed(1.0, End(Raised)));
      var r := After(0.0, FailedCalls(1.0, n - 1));
      OneMoreEntry(r.log, Call(1.0));
      OneMoreEntry(r.log + [Call(1.0)], Failure(1.0));
    }
  }

  lemma {:induction false} StartOfRun(start: real)
    ensures After(start, []) == Run(New(start), None, []) && LastTrip([]) == -1
  {
  }

  /** One more call that fails, after the cool-down. */
  lemma {:induction false} OneMoreFailedCall(events: seq<Timed>, n: nat)
    requires var r := After(0.0, events); r.inProgress.None? && Starting(r.breaker, n)
    ensures var r := After(0.0, events);
            After(0.0, events + [Timed(301.0, Begin)] + [Timed(301.0, End(Raised))])
            == Run(Breaker(n + 1, 0.0, false, 301.0), None, AfterCoolDown(r, 301.0) + [Call(301.0)] + [Failure(301.0)])
  {
    hide After;
    AfterOne(0.0, events, Timed(301.0, Begin));
    AfterOne(0.0, events + [Timed(301.0, Begin)], Timed(301.0, End(Raised)));
  }

  /** The breaker of the outage below, after `n` further failures. */
  predicate Starting(b: Breaker, n: nat) {
    b == if n == 0 then Breaker(5, 0.0, true, 301.0) else Breaker(n, 0.0, false, 301.0)
  }

  /** One trip, and after it any number of calls, all of which fail: however many failures are counted,
      the next call still starts. */
  lemma {:induction false} CallsGoOnFailing(n: nat)
    ensures var r := After(0.0, LongOutage(n));
            && LastTrip(r.log) == 10 && LastTrip(r.log[..10]) == -1 && Failures(r.log, 11) == n
            && r.inProgress.None? && Starting(r.breaker, n) && Gate(r.breaker, 301.0).1.Starts?
  {
    hide After, LastTrip, Failures;
    if n == 0 {
      FirstTrip();
    } else {
      CallsGoOnFailing(n - 1);
      var r := After(0.0, LongOutage(n - 1));
      OneMoreFailedCall(LongOutage(n - 1), n - 1);
      var log := AfterCoolDown(r, 301.0);
      OneMoreEntry(r.log, Reopened(301.0));
      OneMoreEntry(log, Call(301.0));
      OneMoreEntry(log + [Call(301.0)], Failure(301.0));
      assert (log + [Call(301.0)] + [Failure(301.0)])[..10] == r.log[..10];
    }
  }

  lemma FirstTrip()
    ensures var r := After(0.0, LongOutage(0));
            && LastTrip(r.log) == 10 && LastTrip(r.log[..10]) == -1 && Failures(r.log, 11) == 0
            && r.inProgress.None? && Starting(r.breaker, 0)
  {
    hide After, LastTrip, Failures;
    var calls := FailedCalls(1.0, 5);
    FailedCallsCount(5);
    AfterOne(0.0, calls, Timed(1.0, Begin));
    var r := After(0.0, calls);
    NewTrip(r.log, 1.0);
    assert (r.log + [Trip(1.0)])[..10] == r.log;
  }
}
