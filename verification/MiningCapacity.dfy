/** Mining for others: the counter of active work under interleaved request handlers.
    Between the capacity check and the increment a handler may be suspended in a send. */
module MiningCapacity {

  /** `sending` handlers passed the check and wait for their claim to go out; `mining` tasks have started
      and not ended. */
  datatype Slots = Slots(active: int, sending: nat, mining: nat)

  datatype Event =
    | Request(overdue: bool, connected: bool) // a request message; the sender may have gone
    | ClaimSent                               // one suspended handler goes on
    | Finished                                // one mining task ends, well or badly

  /** The code up to the send, or up to its end when there is nobody to send to. */
  function OnRequest(accept: bool, max: int, s: Slots, overdue: bool, connected: bool): Slots {
    if !accept || s.active >= max || overdue then s
    else if connected then s.(sending := s.sending + 1)
    else s.(active := s.active + 1, mining := s.mining + 1)
  }

  function OnClaimSent(s: Slots): Slots
    requires s.sending > 0
  {
    s.(sending := s.sending - 1, active := s.active + 1, mining := s.mining + 1)
  }

  function OnFinished(s: Slots): Slots
    requires s.mining > 0
  {
    s.(active := if s.active - 1 > 0 then s.active - 1 else 0, mining := s.mining - 1)
  }

  /** Each connection works on one message at a time: with `c` connections a request can only arrive
      while fewer than `c` handlers are suspended. */
  predicate Possible(c: nat, s: Slots, e: Event) {
    match e
    case Request(_, _) => s.sending < c
    case ClaimSent => s.sending > 0
    case Finished => s.mining > 0
  }

  function Step(accept: bool, max: int, c: nat, s: Slots, e: Event): Slots {
    if !Possible(c, s, e) then s
    else match e
      case Request(overdue, connected) => OnRequest(accept, max, s, overdue, connected)
      case ClaimSent => OnClaimSent(s)
      case Finished => OnFinished(s)
  }

  const IDLE := Slots(0, 0, 0)

  /** Runs from the idle bridge; events that cannot happen are skipped. */
  function After(accept: bool, max: int, c: nat, events: seq<Event>): Slots {
    if events == [] then IDLE
    else Step(accept, max, c, After(accept, max, c, events[..|events| - 1]), events[|events| - 1])
  }

  /** A request is taken exactly if work is accepted, the counter is below the limit, and its deadline has not passed: the
      handler then waits for its claim to go out if the sender is still connected, and starts mining at once if not. The
      handler that goes on and the mining that ends count one up and one down. */
  lemma RequestsExactly(accept: bool, max: int, c: nat, s: Slots, overdue: bool, connected: bool)
    ensures s.sending < c ==>
              var s' := Step(accept, max, c, s, Request(overdue, connected));
              var taken := accept && s.active < max && !overdue;
              && (!taken ==> s' == s)
              && (taken && connected ==> s' == Slots(s.active, s.sending + 1, s.mining))
              && (taken && !connected ==> s' == Slots(s.active + 1, s.sending, s.mining + 1))
    ensures s.sending > 0 ==> Step(accept, max, c, s, ClaimSent) == Slots(s.active + 1, s.sending - 1, s.mining + 1)
    ensures s.mining > 0 ==> Step(accept, max, c, s, Finished) == Slots(if s.active > 1 then s.active - 1 else 0, s.sending, s.mining - 1)
  {
  }

  /** The counter is the number of unfinished mining tasks (so `max(0, ...)` never clips), and with
      `c` connections it stays at most max - 1 + c, counting those about to be added. */
  lemma {:induction false} CounterIsExactAndBounded(accept: bool, max: int, c: nat, events: seq<Event>)
    ensures var s := After(accept, max, c, events);
            && s.active == s.mining
            && (max >= 1 && c >= 1 ==> s.active + s.sending <= max - 1 + c)
            && (max < 1 || c < 1 || !accept ==> s == IDLE)
  {
    if events != [] {
      CounterIsExactAndBounded(accept, max, c, events[..|events| - 1]);
    }
  }

  /** With one connection the configured limit holds. */
  lemma {:induction false} OneConnectionKeepsTheLimit(accept: bool, max: int, events: seq<Event>)
    requires max >= 1
    ensures After(accept, max, 1, events).active <= max
  {
    CounterIsExactAndBounded(accept, max, 1, events);
  }

  lemma {:induction false} Extend(accept: bool, max: int, c: nat, events: seq<Event>, e: Event)
    ensures After(accept, max, c, events + [e]) == Step(accept, max, c, After(accept, max, c, events), e)
  {
  }

  /** First fill up to one below the limit, one request after the other ... */
  lemma {:induction false} FillUp(max: int, c: nat, n: nat) returns (events: seq<Event>)
    requires c >= 1 && n < max
    ensures After(true, max, c, events) == Slots(n, 0, n)
  {
    if n == 0 {
      events := [];
    } else {
      var before := FillUp(max, c, n - 1);
      Extend(true, max, c, before, Request(false, true));
      Extend(true, max, c, before + [Request(false, true)], ClaimSent);
      events := before + [Request(false, true)] + [ClaimSent];
    }
  }

  /** ... then let `k` handlers pass the check together ... */
  lemma {:induction false} PileUp(max: int, c: nat, k: nat) returns (events: seq<Event>)
    requires max >= 1 && c >= 1 && k <= c
    ensures After(true, max, c, events) == Slots(max - 1, k, max - 1)
  {
    if k == 0 {
      events := FillUp(max, c, max - 1);
    } else {
      var before := PileUp(max, c, k - 1);
      Extend(true, max, c, before, Request(false, true));
      events := before + [Request(false, true)];
    }
  }

  /** ... and let them go on. */
  lemma {:induction false} LetGo(max: int, c: nat, k: nat) returns (events: seq<Event>)
    requires max >= 1 && c >= 1 && k <= c
    ensures After(true, max, c, events) == Slots(max - 1 + k, c - k, max - 1 + k)
  {
    if k == 0 {
      events := PileUp(max, c, c);
    } else {
      var before := LetGo(max, c, k - 1);
      Extend(true, max, c, before, ClaimSent);
      events := before + [ClaimSent];
    }
  }

  /** The bound cannot be improved: the counter passes the configured limit on some run exactly when
      there are at least two connections, and it does reach max - 1 + c. */
  lemma LimitCanBePassed(max: int, c: nat)
    requires max >= 1
    ensures (exists events :: After(true, max, c, events).active > max) <==> c >= 2
    ensures c >= 1 ==> exists events :: After(true, max, c, events).active == max - 1 + c
  {
    if c >= 1 {
      var events := LetGo(max, c, c);
      assert After(true, max, c, events).active == max - 1 + c;
    }
    forall events
      ensures After(true, max, c, events).active <= if c >= 1 then max - 1 + c else 0
    {
      CounterIsExactAndBounded(true, max, c, events);
    }
  }

  /** The counter as the bridge keeps it; `Model` adds the handlers and tasks that exist. */
  class MiningSlots {
    const acceptRemoteWork: bool
    const maxRemoteWorkloads: int
    var activeRemoteMining: int
    ghost var Model: Slots

    ghost predicate Valid()
      reads this
    {
      Model.active == activeRemoteMining
    }

    constructor (accept: bool, max: int)
      ensures Valid() && Model == IDLE && acceptRemoteWork == accept && maxRemoteWorkloads == max
    {
      acceptRemoteWork, maxRemoteWorkloads, activeRemoteMining := accept, max, 0;
      Model := IDLE;
    }

    /** The handler up to its send; `sending` tells whether it now waits for it. */
    method ComputeRequested(overdue: bool, connected: bool) returns (sending: bool)
      requires Valid()
      modifies this
      ensures Valid() && Model == OnRequest(acceptRemoteWork, maxRemoteWorkloads, old(Model), overdue, connected)
      ensures sending <==> Model.sending == old(Model.sending) + 1
    {
      sending := false;
      if !acceptRemoteWork {
        return;
      }
      if activeRemoteMining >= maxRemoteWorkloads {
        return;
      }
      if overdue {
        return;
      }
      if connected {
        sending := true;
        Model := Model.(sending := Model.sending + 1);
      } else {
        activeRemoteMining := activeRemoteMining + 1;
        Model := Model.(active := activeRemoteMining, mining := Model.mining + 1);
      }
    }

    /** The rest of a suspended handler: no second look at the limit. */
    method ClaimWasSent()
      requires Valid() && Model.sending > 0
      modifies this
      ensures Valid() && Model == OnClaimSent(old(Model))
    {
      activeRemoteMining := activeRemoteMining + 1;
      Model := Model.(sending := Model.sending - 1, active := activeRemoteMining, mining := Model.mining + 1);
    }

    method MiningEnded()
      requires Valid() && Model.mining > 0
      modifies this
      ensures Valid() && Model == OnFinished(old(Model))
    {
      activeRemoteMining := if activeRemoteMining - 1 > 0 then activeRemoteMining - 1 else 0;
      Model := Model.(active := activeRemoteMining, mining := Model.mining - 1);
    }
  }
}
