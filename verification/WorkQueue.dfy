/** The priority queue of work requests: appended to and sorted under a lock, popped from the front, drained
    by the consciousness loop. */
module WorkQueue {
  import opened StableSort

  // ----- runs over requests of any kind; a smaller `major` is a higher priority, `minor` is the time -----

  /** All requests submitted, in order; those pending, in queue order; those taken, in order. */
  datatype State<T> = State(submitted: seq<T>, pending: seq<T>, taken: seq<T>)

  datatype Event<T> = Submit(work: T) | Take

  function Queued<T>(key: T -> Key, pending: seq<T>, work: T): seq<T> {
    Sort(key, pending + [work])
  }

  function Step<T>(key: T -> Key, s: State<T>, e: Event<T>): State<T> {
    match e
    case Submit(work) => State(s.submitted + [work], Queued(key, s.pending, work), s.taken)
    case Take => if s.pending == [] then s else State(s.submitted, s.pending[1..], s.taken + [s.pending[0]])
  }

  function After<T>(key: T -> Key, events: seq<Event<T>>): State<T> {
    if events == [] then State([], [], []) else Step(key, After(key, events[..|events| - 1]), events[|events| - 1])
  }

  /** Every request is a new one, and the clock does not go back between submissions. */
  ghost predicate InTime<T>(key: T -> Key, submitted: seq<T>) {
    forall i, j | 0 <= i < j < |submitted| :: submitted[i] != submitted[j] && key(submitted[i]).minor <= key(submitted[j]).minor
  }

  /** Of higher priority, or of the same and submitted earlier. */
  ghost predicate Precedes<T>(key: T -> Key, submitted: seq<T>, x: T, y: T) {
    key(x).major < key(y).major || (key(x).major == key(y).major && Earlier(submitted, x, y))
  }

  ghost predicate Orderly<T>(key: T -> Key, s: State<T>) {
    && Sorted(key, s.pending)
    && (forall i, j | 0 <= i < j < |s.pending| :: Precedes(key, s.submitted, s.pending[i], s.pending[j]))
    && multiset(s.pending) + multiset(s.taken) == multiset(s.submitted)
  }

  /** Appending and sorting puts a request behind the last one of the same or a higher priority. */
  lemma {:induction false} SubmitInsertsBehindEquals<T>(key: T -> Key, pending: seq<T>, work: T)
    requires Sorted(key, pending) && forall x | x in pending :: key(x).minor <= key(work).minor
    ensures var k := Place(key, pending, work);
            && Queued(key, pending, work) == pending[..k] + [work] + pending[k..]
            && (forall x | x in pending[..k] :: key(x).major <= key(work).major)
            && (forall x | x in pending[k..] :: key(x).major > key(work).major)
  {
    var k := Place(key, pending, work);
    AppendThenSort(key, pending, work);
    InsertIsAtPlace(key, pending, work);
    forall i | 0 <= i < k
      ensures key(pending[i]).major <= key(work).major
    {
      if i < k - 1 { assert !Less(key(pending[k - 1]), key(pending[i])); }
    }
    forall x | x in pending[k..]
      ensures key(x).major > key(work).major
    {
      assert x in pending;
    }
  }

  lemma PendingWasSubmitted<T>(key: T -> Key, s: State<T>, x: T)
    requires Orderly(key, s) && x in s.pending
    ensures x in s.submitted
  {
    assert x in multiset(s.pending);
    assert x in multiset(s.submitted);
  }

  lemma PendingIsOlder<T>(key: T -> Key, s: State<T>, work: T)
    requires Orderly(key, s) && InTime(key, s.submitted + [work])
    ensures forall x | x in s.pending :: x in s.submitted && key(x).minor <= key(work).minor
  {
    hide Sorted, Precedes;
    var longer := s.submitted + [work];
    forall x | x in s.pending
      ensures x in s.submitted && key(x).minor <= key(work).minor
    {
      PendingWasSubmitted(key, s, x);
      var i :| 0 <= i < |s.submitted| && s.submitted[i] == x;
      assert longer[i] == x && longer[|s.submitted|] == work;
    }
  }

  lemma SubmitKeepsOrder<T>(key: T -> Key, s: State<T>, work: T)
    requires Orderly(key, s) && InTime(key, s.submitted + [work])
    ensures Orderly(key, Step(key, s, Submit(work)))
  {
    hide Sort, Sorted, Earlier, Precedes, Place, InTime;
    PendingIsOlder(key, s, work);
    SubmitInsertsBehindEquals(key, s.pending, work);
    SortIsSorted(key, s.pending + [work]);
    SortIsPermutation(key, s.pending + [work]);
    InsertedPrecede(key, s, work);
  }

  lemma InsertedPrecede<T>(key: T -> Key, s: State<T>, work: T)
    requires Orderly(key, s) && forall x | x in s.pending :: x in s.submitted
    requires var k := Place(key, s.pending, work);
             (forall x | x in s.pending[..k] :: key(x).major <= key(work).major) && forall x | x in s.pending[k..] :: key(x).major > key(work).major
    ensures var k := Place(key, s.pending, work);
            var r := s.pending[..k] + [work] + s.pending[k..];
            forall i, j | 0 <= i < j < |r| :: Precedes(key, s.submitted + [work], r[i], r[j])
  {
    hide Earlier, Place;
    var k := Place(key, s.pending, work);
    var r := s.pending[..k] + [work] + s.pending[k..];
    forall i, j | 0 <= i < j < |r|
      ensures Precedes(key, s.submitted + [work], r[i], r[j])
    {
      if j == k {
        assert r[i] in s.pending[..k];
        EarlierThanNew(s.submitted, work, r[i]);
      } else if i == k {
        assert r[j] in s.pending[k..];
      } else {
        var a, b := if i < k then i else i - 1, if j < k then j else j - 1;
        assert Precedes(key, s.submitted, s.pending[a], s.pending[b]);
        if key(r[i]).major == key(r[j]).major { EarlierStays(s.submitted, work, r[i], r[j]); }
      }
    }
  }

  lemma TakeKeepsOrder<T>(key: T -> Key, s: State<T>)
    requires Orderly(key, s)
    ensures Orderly(key, Step(key, s, Take))
  {
    hide Precedes;
    if s.pending != [] {
      assert s.pending == [s.pending[0]] + s.pending[1..];
    }
  }

  lemma {:induction false} SubmittedGrows<T>(key: T -> Key, events: seq<Event<T>>, n: nat)
    requires n <= |events|
    ensures After(key, events[..n]).submitted <= After(key, events).submitted
    decreases |events|
  {
    if n < |events| {
      SubmittedGrows(key, events[..|events| - 1], n);
      assert events[..|events| - 1][..n] == events[..n];
    } else {
      assert events[..n] == events;
    }
  }

  /** On every run the queue stays in order, and what was submitted is what is pending and what was taken. */
  lemma {:induction false} RunIsOrderly<T>(key: T -> Key, events: seq<Event<T>>)
    requires InTime(key, After(key, events).submitted)
    ensures Orderly(key, After(key, events))
  {
    hide Step, Orderly;
    if events == [] {
      NothingIsOrderly(key);
    } else {
      var n := |events| - 1;
      SubmittedGrows(key, events, n);
      RunIsOrderly(key, events[..n]);
      match events[n]
      case Submit(work) =>
        SubmittedIs(key, After(key, events[..n]), work);
        SubmitKeepsOrder(key, After(key, events[..n]), work);
      case Take => TakeKeepsOrder(key, After(key, events[..n]));
    }
  }

  lemma SubmittedIs<T>(key: T -> Key, s: State<T>, work: T)
    ensures Step(key, s, Submit(work)).submitted == s.submitted + [work]
  {
  }

  lemma NothingIsOrderly<T>(key: T -> Key)
    ensures Orderly(key, State([], [], []))
  {
  }

  /** Each take hands out the earliest submission of the highest pending priority. */
  lemma {:induction false} TakeIsEarliestOfHighest<T>(key: T -> Key, events: seq<Event<T>>, y: T)
    requires InTime(key, After(key, events).submitted)
    requires var s := After(key, events); s.pending != [] && y in s.pending && y != s.pending[0]
    ensures var s := After(key, events);
            && Step(key, s, Take).taken == s.taken + [s.pending[0]]
            && Precedes(key, s.submitted, s.pending[0], y)
  {
    hide After, Precedes, Sorted;
    RunIsOrderly(key, events);
    var s := After(key, events);
    var j :| 0 <= j < |s.pending| && s.pending[j] == y;
    assert Precedes(key, s.submitted, s.pending[0], s.pending[j]);
  }

  /** No request is taken twice, or taken and still pending; none gets lost. */
  lemma {:induction false} EachIsTakenOnce<T>(key: T -> Key, events: seq<Event<T>>)
    requires InTime(key, After(key, events).submitted)
    ensures var s := After(key, events);
            && (forall i, j | 0 <= i < j < |s.taken| :: s.taken[i] != s.taken[j])
            && (forall x :: x in s.submitted <==> x in s.taken || x in s.pending)
            && (forall x | x in s.taken :: x !in s.pending)
            && |s.submitted| == |s.taken| + |s.pending|
  {
    hide After, Sorted, Precedes;
    RunIsOrderly(key, events);
    var s := After(key, events);
    assert |multiset(s.pending) + multiset(s.taken)| == |s.pending| + |s.taken|;
    forall x
      ensures multiset(s.taken)[x] <= 1 && (x in s.submitted <==> x in s.taken || x in s.pending)
    {
      CountsOnce(key, s, x);
    }
    NoneTwice(s.taken);
    forall x | x in s.taken
      ensures x !in s.pending
    {
      CountsOnce(key, s, x);
    }
  }

  lemma CountsOnce<T>(key: T -> Key, s: State<T>, x: T)
    requires Orderly(key, s) && InTime(key, s.submitted)
    ensures multiset(s.taken)[x] + multiset(s.pending)[x] == multiset(s.submitted)[x] <= 1
    ensures (x in s.taken <==> multiset(s.taken)[x] > 0) && (x in s.pending <==> multiset(s.pending)[x] > 0)
    ensures x in s.submitted <==> x in s.taken || x in s.pending
  {
    hide Sorted, Precedes;
    Distinct(s.submitted);
    assert x in s.submitted <==> x in multiset(s.submitted);
    assert x in s.taken <==> x in multiset(s.taken);
    assert x in s.pending <==> x in multiset(s.pending);
  }

  lemma {:induction false} Distinct<T>(s: seq<T>)
    requires forall i, j | 0 <= i < j < |s| :: s[i] != s[j]
    ensures forall x :: multiset(s)[x] <= 1
  {
    if s != [] {
      var n := |s| - 1;
      Distinct(s[..n]);
      assert s == s[..n] + [s[n]];
      assert s[n] !in s[..n];
    }
  }

  lemma NoneTwice<T>(s: seq<T>)
    requires forall x :: multiset(s)[x] <= 1
    ensures forall i, j | 0 <= i < j < |s| :: s[i] != s[j]
  {
    forall i, j | 0 <= i < j < |s|
      ensures s[i] != s[j]
    {
      assert s == s[..i] + [s[i]] + s[i + 1..j] + [s[j]] + s[j + 1..];
      assert multiset(s)[s[i]] <= 1;
    }
  }

  // ----- draining -----

  /** How many requests the loop takes before it stops: up to and including the first that fails. */
  function DrainCount<T>(pending: seq<T>, fails: T -> bool): (n: nat)
    ensures n <= |pending| && (n < |pending| ==> n > 0 && fails(pending[n - 1])) && forall i | 0 <= i < n - 1 :: !fails(pending[i])
  {
    if pending == [] then 0
    else if fails(pending[0]) then 1
    else DrainCount(pending[1..], fails) + 1
  }

  /** A failed request looks like an empty queue to the loop, so it empties the queue exactly when no request
      but possibly the last one fails. */
  lemma {:induction false} DrainEmptiesExactly<T>(pending: seq<T>, fails: T -> bool)
    ensures DrainCount(pending, fails) == |pending| <==> forall i | 0 <= i < |pending| - 1 :: !fails(pending[i])
  {
  }

  // ----- draining while other threads submit -----

  /** The queue with the loop that drains it: `on` as long as it goes round, `emptied` once it met an empty queue. */
  datatype Loop<T> = Loop(queue: State<T>, on: bool, emptied: bool)

  /** Submissions go on whether the loop runs or not; a take is the loop's, and only while it runs. A request that
      fails looks to the loop like an empty queue. */
  function Turn<T>(key: T -> Key, fails: T -> bool, l: Loop<T>, e: Event<T>): Loop<T> {
    match e
    case Submit(_) => l.(queue := Step(key, l.queue, e))
    case Take =>
      if !l.on then l
      else if l.queue.pending == [] then Loop(l.queue, false, true)
      else Loop(Step(key, l.queue, Take), !fails(l.queue.pending[0]), false)
  }

  function Drained<T>(key: T -> Key, fails: T -> bool, s: State<T>, events: seq<Event<T>>): Loop<T> {
    if events == [] then Loop(s, true, false)
    else Turn(key, fails, Drained(key, fails, s, events[..|events| - 1]), events[|events| - 1])
  }

  function Takes<T>(events: seq<Event<T>>): nat {
    if events == [] then 0 else Takes(events[..|events| - 1]) + if events[|events| - 1].Take? then 1 else 0
  }

  /** What the loop took since the drain began in state `s`. */
  ghost predicate TookSince<T>(s: State<T>, now: State<T>) {
    s.taken <= now.taken && s.submitted <= now.submitted
  }

  /** The loop goes on exactly as long as none of the requests it took failed and it met no empty queue, and of
      those it took none but the last can have failed. */
  ghost predicate StopsRightly<T>(fails: T -> bool, s: State<T>, l: Loop<T>) {
    && TookSince(s, l.queue)
    && var took := l.queue.taken[|s.taken|..];
       && (forall i | 0 <= i < |took| - 1 :: !fails(took[i]))
       && (l.on <==> !l.emptied && (took == [] || !fails(took[|took| - 1])))
       && (l.emptied ==> took == [] || !fails(took[|took| - 1]))
  }

  /** Nothing is lost on the way, and the loop ends: it goes round at most once for each request pending at first
      or submitted meanwhile, and once more. */
  ghost predicate Accounted<T>(s: State<T>, l: Loop<T>, events: seq<Event<T>>) {
    && multiset(l.queue.pending) + multiset(l.queue.taken) + multiset(s.submitted)
       == multiset(s.pending) + multiset(s.taken) + multiset(l.queue.submitted)
    && |l.queue.pending| + |l.queue.taken| + |s.submitted| == |s.pending| + |s.taken| + |l.queue.submitted|
    && |l.queue.submitted| == |s.submitted| + |events| - Takes(events)
    && (l.on ==> Takes(events) == |l.queue.taken| - |s.taken|)
  }

  lemma TurnStopsRightly<T>(key: T -> Key, fails: T -> bool, s: State<T>, l: Loop<T>, e: Event<T>)
    requires StopsRightly(fails, s, l)
    ensures StopsRightly(fails, s, Turn(key, fails, l, e))
  {
    hide Queued;
    var l' := Turn(key, fails, l, e);
    if e.Take? && l.on && l.queue.pending != [] {
      var took := l.queue.taken[|s.taken|..];
      assert l'.queue.taken[|s.taken|..] == took + [l.queue.pending[0]];
    }
  }

  lemma Shifted<T>(a: multiset<T>, b: multiset<T>, c: multiset<T>, d: multiset<T>, e: multiset<T>, f: multiset<T>, more: multiset<T>)
    requires a + b + c == d + e + f
    ensures (a + more) + b + c == d + e + (f + more)
  {
    assert (a + more) + b + c == (a + b + c) + more;
    assert d + e + (f + more) == (d + e + f) + more;
  }

  lemma TurnIsAccounted<T>(key: T -> Key, fails: T -> bool, s: State<T>, l: Loop<T>, events: seq<Event<T>>, e: Event<T>)
    requires Accounted(s, l, events)
    ensures Accounted(s, Turn(key, fails, l, e), events + [e])
  {
    hide Sort;
    assert (events + [e])[..|events|] == events;
    if e.Submit? {
      SortIsPermutation(key, l.queue.pending + [e.work]);
      assert multiset(Queued(key, l.queue.pending, e.work)) == multiset(l.queue.pending) + multiset{e.work};
      assert |multiset(Queued(key, l.queue.pending, e.work))| == |l.queue.pending| + 1;
      assert multiset(l.queue.submitted + [e.work]) == multiset(l.queue.submitted) + multiset{e.work};
      Shifted(multiset(l.queue.pending), multiset(l.queue.taken), multiset(s.submitted), multiset(s.pending), multiset(s.taken),
              multiset(l.queue.submitted), multiset{e.work});
    } else if l.on && l.queue.pending != [] {
      assert l.queue.pending == [l.queue.pending[0]] + l.queue.pending[1..];
    }
  }

  /** Whatever is submitted while the queue is drained: the loop stops exactly at a request that fails or at an empty
      queue, none of the requests taken before failed, and none is lost. */
  lemma {:induction false} DrainStopsExactly<T>(key: T -> Key, fails: T -> bool, s: State<T>, events: seq<Event<T>>)
    ensures StopsRightly(fails, s, Drained(key, fails, s, events)) && Accounted(s, Drained(key, fails, s, events), events)
  {
    hide StopsRightly, Accounted, Turn;
    if events == [] {
      NothingDrained(fails, s);
    } else {
      var n := |events| - 1;
      DrainStopsExactly(key, fails, s, events[..n]);
      TurnStopsRightly(key, fails, s, Drained(key, fails, s, events[..n]), events[n]);
      TurnIsAccounted(key, fails, s, Drained(key, fails, s, events[..n]), events[..n], events[n]);
      assert events[..n] + [events[n]] == events;
    }
  }

  lemma NothingDrained<T>(fails: T -> bool, s: State<T>)
    ensures StopsRightly(fails, s, Loop(s, true, false)) && Accounted<T>(s, Loop(s, true, false), [])
  {
  }

  /** The loop cannot be kept going by its own requests: more looks than requests, and it is over. */
  lemma {:induction false} DrainEnds<T>(key: T -> Key, fails: T -> bool, s: State<T>, events: seq<Event<T>>)
    requires Takes(events) > |s.pending| + (|events| - Takes(events))
    ensures !Drained(key, fails, s, events).on
  {
    DrainStopsExactly(key, fails, s, events);
  }

  function Looks<T>(n: nat): seq<Event<T>> {
    seq(n, _ => Take)
  }

  /** The drain after `n` looks, when it counts `k` requests. */
  function Looked<T>(fails: T -> bool, s: State<T>, k: nat, n: nat): Loop<T>
    requires k <= |s.pending|
  {
    var taken := if n <= k then n else k;
    Loop(State(s.submitted, s.pending[taken..], s.taken + s.pending[..taken]),
         n < k || (n == k && (k == 0 || !fails(s.pending[k - 1]))), n > k && (k == 0 || !fails(s.pending[k - 1])))
  }

  lemma OneMoreLook<T>(key: T -> Key, fails: T -> bool, s: State<T>, n: nat)
    ensures var k := DrainCount(s.pending, fails);
            Turn(key, fails, Looked(fails, s, k, n), Take) == Looked(fails, s, k, n + 1)
  {
    hide Queued;
    var k := DrainCount(s.pending, fails);
    var l := Looked(fails, s, k, n);
    if n < k {
      assert s.taken + s.pending[..n] + [s.pending[n]] == s.taken + s.pending[..n + 1];
      assert l.queue.pending[1..] == s.pending[n + 1..];
    }
  }

  lemma {:induction false} LooksTake<T>(key: T -> Key, fails: T -> bool, s: State<T>, n: nat)
    ensures Drained(key, fails, s, Looks(n)) == Looked(fails, s, DrainCount(s.pending, fails), n)
  {
    hide Turn, DrainCount;
    if n > 0 {
      LooksTake(key, fails, s, n - 1);
      OneMoreLook(key, fails, s, n - 1);
      assert Looks<T>(n)[..n - 1] == Looks(n - 1);
    } else {
      assert s.pending[0..] == s.pending && s.taken + s.pending[..0] == s.taken;
    }
  }

  /** With nobody else submitting, the queue is drained exactly by its own count. */
  lemma UndisturbedDrain<T>(key: T -> Key, fails: T -> bool, s: State<T>)
    ensures var l := Drained(key, fails, s, Looks(|s.pending| + 1));
            !l.on && l.queue.pending == s.pending[DrainCount(s.pending, fails)..]
  {
    LooksTake(key, fails, s, |s.pending| + 1);
  }

  lemma SortOne<T>(key: T -> Key, x: T)
    ensures Sort(key, [x]) == [x]
  {
  }

  const SAME: int -> Key := (work: int) => Key(0, work as real)
  const ZERO_FAILS: int -> bool := (work: int) => work == 0

  lemma TwoAreQueued()
    ensures After(SAME, [Submit(0), Submit(1)]).pending == [0, 1]
  {
    hide Sort;
    var events := [Submit(0), Submit(1)];
    assert events[..1] == [Submit(0)] && [Submit(0)][..0] == [] && [] + [0] == [0] && [0] + [1] == [0, 1];
    SortOne(SAME, 0);
    AppendThenSort(SAME, [0], 1);
    assert After(SAME, [Submit(0)]).pending == [0];
  }

  /** Two requests of the same priority, the first of which fails: it stops the loop, and the other one stays. */
  lemma FailureStopsDrain()
    ensures var s := After(SAME, [Submit(0), Submit(1)]);
            s.pending == [0, 1] && forall n: nat | n > 0 :: Drained(SAME, ZERO_FAILS, s, Looks(n)).queue.pending == [1]
  {
    hide After, Drained;
    TwoAreQueued();
    var s := After(SAME, [Submit(0), Submit(1)]);
    assert DrainCount(s.pending, ZERO_FAILS) == 1;
    forall n: nat | n > 0
      ensures Drained(SAME, ZERO_FAILS, s, Looks(n)).queue.pending == [1]
    {
      LooksTake(SAME, ZERO_FAILS, s, n);
    }
  }

  // ----- the queue object -----

  datatype Status = Pending | Completed | Failed

  /** What happens when a request is processed: does the work raise, does the callback raise when it gets the
      result, and does it raise when it gets an error? */
  datatype Attempt = Attempt(workRaises: bool, resultRaises: bool, errorRaises: bool)

  /** What a call of the callback is given. */
  datatype Told = GotResult | GotError

  class WorkRequest {
    const id: string
    const kind: string
    const data: string
    const hasCallback: bool
    const priority: int
    const submittedAt: real
    var status: Status

    constructor (id: string, kind: string, data: string, hasCallback: bool, priority: int, submittedAt: real)
      ensures this.id == id && this.kind == kind && this.data == data && this.hasCallback == hasCallback
      ensures this.priority == priority && this.submittedAt == submittedAt && status == Pending
    {
      this.id, this.kind, this.data, this.hasCallback := id, kind, data, hasCallback;
      this.priority, this.submittedAt, status := priority, submittedAt, Pending;
    }
  }

  function QueueKey(w: WorkRequest): Key {
    Key(-w.priority, w.submittedAt)
  }

  predicate FailsWith(w: WorkRequest, a: Attempt) {
    a.workRaises || (w.hasCallback && a.resultRaises)
  }

  function Failing(attempt: WorkRequest -> Attempt): WorkRequest -> bool {
    (w: WorkRequest) => FailsWith(w, attempt(w))
  }

  datatype Processed = Nothing | Result | NoResult | Escaped

  class ConsciousnessNervousSystem {
    var workQueue: seq<WorkRequest>

    constructor ()
      ensures workQueue == []
    {
      workQueue := [];
    }

    method SubmitWorkRequest(id: string, kind: string, data: string, hasCallback: bool, priority: int,
            now: real) returns (work: WorkRequest)
      modifies this
      ensures fresh(work) && work.status == Pending && QueueKey(work) == Key(-priority, now)
      ensures work.id == id && work.kind == kind && work.data == data && work.hasCallback == hasCallback
      ensures workQueue == Queued(QueueKey, old(workQueue), work)
    {
      work := new WorkRequest(id, kind, data, hasCallback, priority, now);
      workQueue := workQueue + [work];
      workQueue := Sort(QueueKey, workQueue);
    }

    /** The first request leaves the queue whatever happens. It is completed if neither the work nor the callback raises,
        and failed otherwise; a callback is told the result, and after a failure the error, the same one twice if it
        raises on the result. A failure returns nothing, and an exception of the callback on the error leaves the
        method. */
    method ProcessWorkQueue(attempt: WorkRequest -> Attempt) returns (r: Processed, told: seq<Told>)
      modifies this, workQueue
      ensures old(workQueue) == [] ==> r == Nothing && told == [] && workQueue == []
      ensures old(workQueue) != [] ==>
                var w := old(workQueue)[0];
                var a := attempt(w);
                && workQueue == old(workQueue)[1..]
                && (w.status == Completed <==> !a.workRaises && !(w.hasCallback && a.resultRaises))
                && (w.status == Failed <==> a.workRaises || (w.hasCallback && a.resultRaises))
                && (!w.hasCallback ==> told == [])
                && (w.hasCallback && a.workRaises ==> told == [GotError])
                && (w.hasCallback && !a.workRaises && a.resultRaises ==> told == [GotResult, GotError])
                && (w.hasCallback && !a.workRaises && !a.resultRaises ==> told == [GotResult])
                && (r == Result <==> w.status == Completed)
                && (r == Escaped <==> w.status == Failed && w.hasCallback && a.errorRaises)
                && (r == NoResult <==> w.status == Failed && !(w.hasCallback && a.errorRaises))
      ensures forall w | w in old(workQueue) && w != old(workQueue)[0] :: w.status == old(w.status)
    {
      told := [];
      if workQueue == [] {
        return Nothing, told;
      }
      var work := workQueue[0];
      workQueue := workQueue[1..];
      var a := attempt(work);
      var raised := a.workRaises;
      if !raised && work.hasCallback {
        told := told + [GotResult];
        raised := a.resultRaises;
      }
      if !raised {
        work.status := Completed;
        return Result, told;
      }
      work.status := Failed;
      if work.hasCallback {
        told := told + [GotError];
        if a.errorRaises {
          return Escaped, told;
        }
      }
      return NoResult, told;
    }

    /** The loop that processes requests until it gets no result. */
    method Drain(attempt: WorkRequest -> Attempt)
      modifies this, workQueue
      ensures var was := old(workQueue);
              var n := DrainCount(was, Failing(attempt));
              workQueue == was[n..] && forall i | 0 <= i < n :: was[i].status == if FailsWith(was[i], attempt(was[i])) then Failed else Completed
    {
        ghost var was := workQueue;
      ghost var taken := 0;
      while true
        invariant 0 <= taken <= |was| && workQueue == was[taken..]
        invariant DrainCount(was, Failing(attempt)) == taken + DrainCount(workQueue, Failing(attempt))
        invariant forall i | 0 <= i < taken :: was[i].status == if FailsWith(was[i], attempt(was[i])) then Failed else Completed
        decreases |workQueue|
      {
        var r, told := ProcessWorkQueue(attempt);
        if !r.Result? {
          if r != Nothing { taken := taken + 1; }
          break;
        }
        taken := taken + 1;
      }
    }
  }
}
