/** Why a message handler of the bridge is one step: a small model of tasks on an event loop.
    A task keeps running until it awaits something, or wants a lock another task holds. */
module LockStep {

  datatype Lock = WorkloadLock | ComputeLock

  /** `Act` is plain code; `Await` is any await that may hand control to another task. */
  datatype Op = Acquire(lock: Lock) | Release(lock: Lock) | Await | Act(what: string)

  datatype Task = Task(ops: seq<Op>, pc: nat)

  /** One turn of a task from `pc`, with `held` the locks taken by anyone: where it stops,
      the locks taken then, and whether a taken lock stopped it. */
  function Turn(ops: seq<Op>, pc: nat, held: set<Lock>): (nat, set<Lock>, bool)
    decreases |ops| - pc
  {
    if pc >= |ops| then (pc, held, false)
    else match ops[pc]
      case Await => (pc + 1, held, false)
      case Act(_) => Turn(ops, pc + 1, held)
      case Release(l) => Turn(ops, pc + 1, held - {l})
      case Acquire(l) => if l in held then (pc, held, true) else Turn(ops, pc + 1, held + {l})
  }

  /** Where a task gets that is never stopped by a lock: past the next await, or to the end. */
  function PastNextAwait(ops: seq<Op>, pc: nat): nat
    decreases |ops| - pc
  {
    if pc >= |ops| then pc
    else if ops[pc].Await? then pc + 1
    else PastNextAwait(ops, pc + 1)
  }

  /** From `pc` on, holding `mine`: locks are taken once, given back, and never held across an await. */
  predicate Disciplined(ops: seq<Op>, pc: nat, mine: set<Lock>)
    decreases |ops| - pc
  {
    if pc >= |ops| then mine == {}
    else match ops[pc]
      case Await => mine == {} && Disciplined(ops, pc + 1, mine)
      case Act(_) => Disciplined(ops, pc + 1, mine)
      case Release(l) => l in mine && Disciplined(ops, pc + 1, mine - {l})
      case Acquire(l) => l !in mine && Disciplined(ops, pc + 1, mine + {l})
  }

  /** A schedule: in each turn some task runs. */
  function Schedule(tasks: seq<Task>, held: set<Lock>, turns: seq<nat>): (seq<Task>, set<Lock>)
    requires forall i | 0 <= i < |turns| :: turns[i] < |tasks|
    decreases |turns|
  {
    if turns == [] then (tasks, held)
    else
      var t := turns[0];
      var (pc, held', _) := Turn(tasks[t].ops, tasks[t].pc, held);
      Schedule(tasks[t := tasks[t].(pc := pc)], held', turns[1..])
  }

  lemma {:induction false} TurnOfDisciplined(ops: seq<Op>, pc: nat, mine: set<Lock>)
    requires Disciplined(ops, pc, mine)
    ensures var (pc', held, blocked) := Turn(ops, pc, mine);
            && !blocked && held == {} && pc' == PastNextAwait(ops, pc) && Disciplined(ops, pc', {})
    decreases |ops| - pc
  {
    if pc < |ops| {
      match ops[pc]
      case Await =>
      case Act(_) => TurnOfDisciplined(ops, pc + 1, mine);
      case Release(l) => TurnOfDisciplined(ops, pc + 1, mine - {l});
      case Acquire(l) => TurnOfDisciplined(ops, pc + 1, mine + {l});
    }
  }

  /** If no task holds a lock across an await, then after any schedule every lock is free, so no
      task ever waits for one: each turn runs from one await to the next as one step. */
  lemma {:induction false} LocksAreNeverContended(tasks: seq<Task>, turns: seq<nat>, next: nat)
    requires forall i | 0 <= i < |turns| :: turns[i] < |tasks|
    requires forall t | t in tasks :: Disciplined(t.ops, t.pc, {})
    requires next < |tasks|
    ensures var (now, held) := Schedule(tasks, {}, turns);
            && |now| == |tasks| && held == {}
            && !Turn(now[next].ops, now[next].pc, held).2
            && Turn(now[next].ops, now[next].pc, held).0 == PastNextAwait(now[next].ops, now[next].pc)
    decreases |turns|
  {
    if turns == [] {
      assert tasks[next] in tasks;
      TurnOfDisciplined(tasks[next].ops, tasks[next].pc, {});
    } else {
      var t := turns[0];
      assert tasks[t] in tasks;
      TurnOfDisciplined(tasks[t].ops, tasks[t].pc, {});
      var moved := tasks[t := tasks[t].(pc := Turn(tasks[t].ops, tasks[t].pc, {}).0)];
      LocksAreNeverContended(moved, turns[1..], next);
    }
  }

  // ----- the bridge's handlers, path by path -----

  /** `async with lock:` around plain code. */
  function Guarded(l: Lock, what: string): seq<Op> {
    [Acquire(l), Act(what), Release(l)]
  }

  /** Unknown or completed workload; invalid proof; accepted result. */
  function ResultPath(known: bool, valid: bool): seq<Op> {
    var look := Guarded(WorkloadLock, "look up, check status");
    if !known then look
    else if !valid then look + [Act("verify")] + Guarded(ComputeLock, "penalise")
    else look + [Act("verify")] + Guarded(WorkloadLock, "complete") + [Act("store result, reward")] + Guarded(ComputeLock, "reputation")
  }

  function ClaimPath(): seq<Op> {
    [Act("read message")] + Guarded(WorkloadLock, "claim if pending")
  }

  function RejectPath(): seq<Op> {
    Guarded(WorkloadLock, "fail unless completed") + Guarded(ComputeLock, "penalise")
  }

  function CleanupPath(): seq<Op> {
    Guarded(WorkloadLock, "expire") + Guarded(ComputeLock, "drop stale peers")
  }

  function DispatchPath(): seq<Op> {
    [Act("find peers")] + Guarded(WorkloadLock, "record") + [Await] + [Act("count")]
  }

  /** One round of the waiting loop that does not end it. */
  function PollPath(): seq<Op> {
    [Act("take result if there")] + Guarded(WorkloadLock, "see whether it failed") + [Await]
  }

  /** The send of the claim is a real await between the capacity check and the increment. */
  function RequestPath(): seq<Op> {
    [Act("check capacity and deadline"), Await] + [Act("increment, start mining")]
  }

  /** The handlers of results, claims, rejects and requests, the cleanup, a dispatch, and a look of a waiter. */
  datatype Handler = Result(known: bool, valid: bool) | Claim | Reject | Cleanup | Dispatch | Poll | Request

  function Path(h: Handler): seq<Op> {
    match h
    case Result(known, valid) => ResultPath(known, valid)
    case Claim => ClaimPath()
    case Reject => RejectPath()
    case Cleanup => CleanupPath()
    case Dispatch => DispatchPath()
    case Poll => PollPath()
    case Request => RequestPath()
  }

  predicate InOneTurn(h: Handler) {
    !h.Dispatch? && !h.Request?
  }

  /** Plain code between two awaits, or before the first and behind the last. */
  lemma {:induction false} NoAwaitHere(ops: seq<Op>, pc: nat, stop: nat)
    requires pc <= stop <= |ops| && forall k | pc <= k < stop :: !ops[k].Await?
    ensures PastNextAwait(ops, pc) == PastNextAwait(ops, stop)
    decreases stop - pc
  {
    if pc < stop {
      NoAwaitHere(ops, pc + 1, stop);
    }
  }

  /** No handler holds a lock across an await, and none has more than one await. */
  lemma PathIsDisciplined(h: Handler)
    ensures Disciplined(Path(h), 0, {})
    ensures var stop := PastNextAwait(Path(h), 0);
            && PastNextAwait(Path(h), stop) == |Path(h)|
            && (InOneTurn(h) ==> stop == |Path(h)|) && (h.Request? ==> stop == 2) && (h.Dispatch? ==> stop == 5)
  {
    hide PastNextAwait;
    match h
    case Result(known, valid) => ResultIsDisciplined(known, valid);
    case Claim => OthersAreDisciplined();
    case Reject => OthersAreDisciplined();
    case Cleanup => OthersAreDisciplined();
    case Dispatch => WaitersAreDisciplined();
    case Poll => WaitersAreDisciplined();
    case Request => WaitersAreDisciplined();
  }

  lemma {:induction false} EndIsEnd(ops: seq<Op>)
    ensures PastNextAwait(ops, |ops|) == |ops|
    ensures forall k | 0 <= k < |ops| && ops[k].Await? :: PastNextAwait(ops, k) == k + 1
  {
  }

  lemma ResultIsDisciplined(known: bool, valid: bool)
    ensures var p := ResultPath(known, valid); Disciplined(p, 0, {}) && PastNextAwait(p, 0) == |p| && PastNextAwait(p, |p|) == |p|
  {
    hide PastNextAwait;
    var p := ResultPath(known, valid);
    NoAwaitHere(p, 0, |p|);
    EndIsEnd(p);
  }

  lemma OthersAreDisciplined()
    ensures forall p | p in {ClaimPath(), RejectPath(), CleanupPath()} ::
              Disciplined(p, 0, {}) && PastNextAwait(p, 0) == |p| && PastNextAwait(p, |p|) == |p|
  {
    hide PastNextAwait;
    forall p | p in {ClaimPath(), RejectPath(), CleanupPath()}
      ensures Disciplined(p, 0, {}) && PastNextAwait(p, 0) == |p| && PastNextAwait(p, |p|) == |p|
    {
      NoAwaitHere(p, 0, |p|);
      EndIsEnd(p);
    }
  }

  lemma WaitersAreDisciplined()
    ensures Disciplined(DispatchPath(), 0, {}) && Disciplined(PollPath(), 0, {}) && Disciplined(RequestPath(), 0, {})
    ensures PastNextAwait(DispatchPath(), 0) == 5 && PastNextAwait(DispatchPath(), 5) == |DispatchPath()|
    ensures PastNextAwait(PollPath(), 0) == |PollPath()| == PastNextAwait(PollPath(), |PollPath()|)
    ensures PastNextAwait(RequestPath(), 0) == 2 && PastNextAwait(RequestPath(), 2) == |RequestPath()|
  {
    hide PastNextAwait;
    EndIsEnd(DispatchPath());
    NoAwaitHere(DispatchPath(), 0, 4);
    NoAwaitHere(DispatchPath(), 5, 6);
    EndIsEnd(PollPath());
    NoAwaitHere(PollPath(), 0, 4);
    EndIsEnd(RequestPath());
    NoAwaitHere(RequestPath(), 0, 1);
    NoAwaitHere(RequestPath(), 2, 3);
  }

  function Started(handlers: seq<Handler>): seq<Task> {
    seq(|handlers|, i requires 0 <= i < |handlers| => Task(Path(handlers[i]), 0))
  }

  /** Where a handler can be between two turns: at its start, behind its await, or at its end. */
  predicate Rests(h: Handler, pc: nat) {
    pc == 0 || pc == PastNextAwait(Path(h), 0) || pc == |Path(h)|
  }

  ghost predicate AllRest(handlers: seq<Handler>, tasks: seq<Task>) {
    && |tasks| == |handlers|
    && forall i | 0 <= i < |handlers| :: RestsAt(handlers, tasks, i)
  }

  ghost predicate RestsAt(handlers: seq<Handler>, tasks: seq<Task>, i: nat)
    requires i < |tasks| == |handlers|
  {
    tasks[i].ops == Path(handlers[i]) && Rests(handlers[i], tasks[i].pc) && Disciplined(tasks[i].ops, tasks[i].pc, {})
  }

  lemma {:induction false} TurnRests(h: Handler, pc: nat)
    requires Rests(h, pc) && Disciplined(Path(h), pc, {})
    ensures var (pc', held, blocked) := Turn(Path(h), pc, {});
            && !blocked && held == {} && Rests(h, pc') && Disciplined(Path(h), pc', {})
            && (pc == 0 && InOneTurn(h) ==> pc' == |Path(h)|)
  {
    hide Path, Turn;
    PathIsDisciplined(h);
    TurnOfDisciplined(Path(h), pc, {});
    EndIsEnd(Path(h));
  }

  lemma {:induction false} ScheduleRests(handlers: seq<Handler>, tasks: seq<Task>, turns: seq<nat>)
    requires AllRest(handlers, tasks) && forall i | 0 <= i < |turns| :: turns[i] < |tasks|
    ensures Schedule(tasks, {}, turns).1 == {} && AllRest(handlers, Schedule(tasks, {}, turns).0)
    decreases |turns|
  {
    hide Rests, Disciplined, Turn, Path;
    if turns != [] {
      var t := turns[0];
      assert RestsAt(handlers, tasks, t);
      TurnRests(handlers[t], tasks[t].pc);
      var moved := tasks[t := tasks[t].(pc := Turn(tasks[t].ops, tasks[t].pc, {}).0)];
      forall i | 0 <= i < |handlers|
        ensures RestsAt(handlers, moved, i)
      {
        assert RestsAt(handlers, tasks, i);
      }
      ScheduleRests(handlers, moved, turns[1..]);
    }
  }

  /** Any number of the bridge's handlers, their turns in any order: between turns every lock is free, no turn waits for
      one, and a result, claim, reject, cleanup or look of a waiter is at its start or over, so it ran as one step. A
      request can also rest between its capacity check and its increment, a dispatch before it counts. */
  lemma {:induction false} HandlersAreSteps(handlers: seq<Handler>, turns: seq<nat>, i: nat)
    requires i < |handlers| && forall k | 0 <= k < |turns| :: turns[k] < |handlers|
    ensures var (now, held) := Schedule(Started(handlers), {}, turns);
            && held == {} && |now| == |handlers| && !Turn(now[i].ops, now[i].pc, held).2
            && (now[i].pc == 0 || now[i].pc == |Path(handlers[i])|
                || (handlers[i].Request? && now[i].pc == 2) || (handlers[i].Dispatch? && now[i].pc == 5))
  {
    hide Turn;
    var tasks := Started(handlers);
    forall j | 0 <= j < |handlers|
      ensures RestsAt(handlers, tasks, j)
    {
      PathIsDisciplined(handlers[j]);
    }
    ScheduleRests(handlers, tasks, turns);
    var now := Schedule(tasks, {}, turns).0;
    assert RestsAt(handlers, now, i);
    TurnRests(handlers[i], now[i].pc);
    PathIsDisciplined(handlers[i]);
  }
}
