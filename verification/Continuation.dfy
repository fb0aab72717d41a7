/** Completing a long answer over several requests under one token budget. The service is whatever it is:
    `replies(i)` is what it says to the request number `i` of the run. */
module Continuation {

  datatype Turn = User(content: string) | Assistant(content: string)
  datatype Request = Request(maxTokens: int, turns: seq<Turn>)

  /** An HTTP error, or the text parts joined, the usage reported, and whether the token limit cut it off. */
  datatype Reply = HttpError | Reply(text: string, inTokens: int, outTokens: int, cutOff: bool)

  datatype Outcome = Raised | Answer(text: string, inTokens: int, outTokens: int)

  const CEILING := 16000
  const ROUNDS := 8
  const CONTINUE := "Continue exactly where you left off. Do not repeat any text already written."

  function Budget(maxTokens: int): int {
    if maxTokens < 16 then 16 else maxTokens
  }

  function TrimEnd(space: char -> bool, s: string): (r: string)
    ensures |r| <= |s| && r == s[..|r|] && (r != "" ==> !space(r[|r| - 1])) && forall k | |r| <= k < |s| :: space(s[k])
  {
    if s != "" && space(s[|s| - 1]) then TrimEnd(space, s[..|s| - 1]) else s
  }

  function Turns(space: char -> bool, task: string, acc: string): seq<Turn> {
    if acc == "" then [User(task)] else [User(task), Assistant(TrimEnd(space, acc)), User(CONTINUE)]
  }

  function Asked(left: int): int {
    if left < CEILING then left else CEILING
  }

  /** Text and usage so far, the requests sent, and whether and how the loop was left. */
  datatype Talk = Talk(acc: string, inTokens: int, outTokens: int, sent: seq<Request>, ended: bool, raised: bool)

  const SILENCE := Talk("", 0, 0, [], false, false)

  function Receive(t: Talk, request: Request, r: Reply): Talk {
    var s := t.(sent := t.sent + [request]);
    match r
    case HttpError => s.(ended := true, raised := true)
    case Reply(text, inTokens, outTokens, cutOff) =>
      if text == "" then s.(ended := true)
      else s.(acc := t.acc + text, inTokens := t.inTokens + inTokens, outTokens := t.outTokens + outTokens, ended := !cutOff)
  }

  /** One turn of the loop. */
  function Round(space: char -> bool, task: string, budget: int, t: Talk, r: Reply): Talk {
    if t.ended then t
    else if budget - t.outTokens <= 0 then t.(ended := true)
    else Receive(t, Request(Asked(budget - t.outTokens), Turns(space, task, t.acc)), r)
  }

  function After(space: char -> bool, task: string, budget: int, replies: nat -> Reply, n: nat): Talk {
    if n == 0 then SILENCE else Round(space, task, budget, After(space, task, budget, replies, n - 1), replies(n - 1))
  }

  function OutcomeOf(t: Talk): Outcome {
    if t.raised then Raised else Answer(t.acc, t.inTokens, t.outTokens)
  }

  lemma {:induction false} NothingAfterTheEnd(space: char -> bool, task: string, budget: int, replies: nat -> Reply,
          n: nat, m: nat)
    requires n <= m && After(space, task, budget, replies, n).ended
    ensures After(space, task, budget, replies, m) == After(space, task, budget, replies, n)
  {
    if n < m {
      NothingAfterTheEnd(space, task, budget, replies, n, m - 1);
    }
  }

  /** `_anthropic_complete`, with the requests it sends. */
  method Complete(space: char -> bool, task: string, maxTokens: int,
          replies: nat -> Reply) returns (outcome: Outcome, sent: seq<Request>)
    ensures var t := After(space, task, Budget(maxTokens), replies, ROUNDS);
            outcome == OutcomeOf(t) && sent == t.sent
  {
    hide Turns, Asked, Budget;
    var acc, totalOut, totalIn := "", 0, 0;
    var budget := Budget(maxTokens);
    sent := [];
    for i := 0 to ROUNDS
      invariant After(space, task, budget, replies, i) == Talk(acc, totalIn, totalOut, sent, false, false)
    {
      if budget - totalOut <= 0 {
        NothingAfterTheEnd(space, task, budget, replies, i + 1, ROUNDS);
        break;
      }
      sent := sent + [Request(Asked(budget - totalOut), Turns(space, task, acc))];
      var r := replies(i);
      if r.HttpError? {
        NothingAfterTheEnd(space, task, budget, replies, i + 1, ROUNDS);
        return Raised, sent;
      }
      if r.text == "" {
        NothingAfterTheEnd(space, task, budget, replies, i + 1, ROUNDS);
        break;
      }
      acc := acc + r.text;
      totalIn := totalIn + r.inTokens;
      totalOut := totalOut + r.outTokens;
      if !r.cutOff {
        NothingAfterTheEnd(space, task, budget, replies, i + 1, ROUNDS);
        break;
      }
    }
    outcome := Answer(acc, totalIn, totalOut);
  }

  // ----- whole runs -----

  /** The texts of the first `n` replies, in order. */
  function Texts(replies: nat -> Reply, n: nat): string {
    if n == 0 then ""
    else if replies(n - 1).Reply? then Texts(replies, n - 1) + replies(n - 1).text
    else Texts(replies, n - 1)
  }

  predicate Counts(r: Reply) {
    r.Reply? && r.text != ""
  }

  /** What the first `n` replies used, those without text left out. */
  function OutUse(replies: nat -> Reply, n: nat): int {
    if n == 0 then 0
    else if Counts(replies(n - 1)) then OutUse(replies, n - 1) + replies(n - 1).outTokens
    else OutUse(replies, n - 1)
  }

  function InUse(replies: nat -> Reply, n: nat): int {
    if n == 0 then 0
    else if Counts(replies(n - 1)) then InUse(replies, n - 1) + replies(n - 1).inTokens
    else InUse(replies, n - 1)
  }

  /** A reply after which another request may follow. */
  predicate GoesOn(r: Reply) {
    Counts(r) && r.cutOff
  }

  /** The request number `i`. */
  function Nth(space: char -> bool, task: string, budget: int, replies: nat -> Reply, i: nat): Request {
    Request(Asked(budget - OutUse(replies, i)), Turns(space, task, Texts(replies, i)))
  }

  predicate Stops(budget: int, replies: nat -> Reply, k: nat) {
    (k > 0 && !GoesOn(replies(k - 1))) || OutUse(replies, k) >= budget
  }

  /** How many of at most `n` requests are sent: as long as replies go on and budget is left. */
  function Count(budget: int, replies: nat -> Reply, n: nat): (k: nat)
    ensures k <= n && (k < n ==> Stops(budget, replies, k)) && forall i: nat | i < k :: !Stops(budget, replies, i)
  {
    if n == 0 then 0
    else
      var k := Count(budget, replies, n - 1);
      if k < n - 1 || Stops(budget, replies, k) then k else k + 1
  }

  /** The state after `n` turns of the loop, in closed form. */
  function Closed(space: char -> bool, task: string, budget: int, replies: nat -> Reply, n: nat): Talk {
    var k := Count(budget, replies, n);
    Talk(Texts(replies, k), InUse(replies, k), OutUse(replies, k), seq(k, i requires 0 <= i < k => Nth(space, task, budget, replies, i)),
         k < n || (k > 0 && !GoesOn(replies(k - 1))), k > 0 && replies(k - 1).HttpError?)
  }

  lemma {:induction false} AfterIsClosed(space: char -> bool, task: string, budget: int, replies: nat -> Reply, n: nat)
    ensures After(space, task, budget, replies, n) == Closed(space, task, budget, replies, n)
  {
    hide Turns, Asked;
    if n > 0 {
      AfterIsClosed(space, task, budget, replies, n - 1);
      var k := Count(budget, replies, n - 1);
      if k == n - 1 && !Stops(budget, replies, k) {
        OneMore(space, task, budget, replies, k);
      }
    }
  }

  lemma OneMore(space: char -> bool, task: string, budget: int, replies: nat -> Reply, k: nat)
    requires Count(budget, replies, k) == k && !Stops(budget, replies, k)
    ensures Round(space, task, budget, Closed(space, task, budget, replies, k), replies(k)) == Closed(space, task, budget, replies, k + 1)
  {
    hide Turns, Asked;
  }

  function Least(a: int, b: int): int {
    if a < b then a else b
  }

  /** The whole run of `Complete`. */
  function Whole(space: char -> bool, task: string, maxTokens: int, replies: nat -> Reply): Talk {
    After(space, task, Budget(maxTokens), replies, ROUNDS)
  }

  lemma WholeIs(space: char -> bool, task: string, maxTokens: int, replies: nat -> Reply) returns (n: nat)
    ensures var t := Whole(space, task, maxTokens, replies);
            && n == Count(Budget(maxTokens), replies, ROUNDS) == |t.sent| && 1 <= n <= ROUNDS
            && t.acc == Texts(replies, n) && t.inTokens == InUse(replies, n) && t.outTokens == OutUse(replies, n)
            && (t.raised <==> replies(n - 1).HttpError?)
  {
    hide Turns, After, Texts, InUse, GoesOn;
    AfterIsClosed(space, task, Budget(maxTokens), replies, ROUNDS);
    n := Count(Budget(maxTokens), replies, ROUNDS);
    assert !Stops(Budget(maxTokens), replies, 0);
  }

  lemma SentIs(space: char -> bool, task: string, maxTokens: int, replies: nat -> Reply, i: nat)
    requires i < |Whole(space, task, maxTokens, replies).sent|
    ensures Whole(space, task, maxTokens, replies).sent[i] == Nth(space, task, Budget(maxTokens), replies, i)
    ensures !Stops(Budget(maxTokens), replies, i)
  {
    hide Turns, After, Texts, InUse, GoesOn, Nth, Stops;
    AfterIsClosed(space, task, Budget(maxTokens), replies, ROUNDS);
  }

  /** At most eight requests; each asks for what is left of the budget, but for 1 to 16000 tokens, whatever
      the service answers. */
  lemma EveryRequestIsInRange(space: char -> bool, task: string, maxTokens: int, replies: nat -> Reply)
    ensures Budget(maxTokens) == if maxTokens > 16 then maxTokens else 16
    ensures var sent := Whole(space, task, maxTokens, replies).sent;
            && 1 <= |sent| <= 8
            && forall i | 0 <= i < |sent| :: 1 <= sent[i].maxTokens <= 16000 && sent[i].maxTokens == Least(Budget(maxTokens) - OutUse(replies, i), 16000)
  {
    hide Turns, Whole, Texts, OutUse, GoesOn;
    var n := WholeIs(space, task, maxTokens, replies);
    forall i: nat | i < n
      ensures var asked := Whole(space, task, maxTokens, replies).sent[i].maxTokens;
              1 <= asked <= 16000 && asked == Least(Budget(maxTokens) - OutUse(replies, i), 16000)
    {
      SentIs(space, task, maxTokens, replies, i);
    }
  }

  /** The requests go on exactly as long as the replies do and budget is left: all but the last reply have text and
      were cut off, before each request some of the budget was left, and after the last reply there was no
      reason to go on. */
  lemma RunGoesOnExactly(space: char -> bool, task: string, maxTokens: int, replies: nat -> Reply)
    ensures var n := |Whole(space, task, maxTokens, replies).sent|;
            && n > 0 && (forall i: nat | i < n - 1 :: GoesOn(replies(i)))
            && (forall i: nat | i < n :: OutUse(replies, i) < Budget(maxTokens))
            && (n == 8 || !GoesOn(replies(n - 1)) || OutUse(replies, n) >= Budget(maxTokens))
  {
    hide Turns, Whole, Texts, OutUse, Budget, GoesOn;
    var n := WholeIs(space, task, maxTokens, replies);
    forall i: nat | i < n - 1
      ensures GoesOn(replies(i))
    {
      assert !Stops(Budget(maxTokens), replies, i + 1);
    }
    forall i: nat | i < n
      ensures OutUse(replies, i) < Budget(maxTokens)
    {
      assert !Stops(Budget(maxTokens), replies, i);
    }
  }

  /** An error reply loses everything; otherwise the answer is the chunks in order, and the usage theirs. */
  lemma AnswerIsTheChunks(space: char -> bool, task: string, maxTokens: int, replies: nat -> Reply)
    ensures var t := Whole(space, task, maxTokens, replies);
            var n := |t.sent|;
            n > 0 && OutcomeOf(t) == if replies(n - 1).HttpError? then Raised else Answer(Texts(replies, n), InUse(replies, n), OutUse(replies, n))
  {
    hide Whole, Texts, InUse, OutUse;
    var n := WholeIs(space, task, maxTokens, replies);
  }

  // ----- the budget -----

  /** No reply uses more than was asked for. */
  ghost predicate Modest(sent: seq<Request>, replies: nat -> Reply) {
    forall i: nat | i < |sent| && replies(i).Reply? :: 0 <= replies(i).outTokens <= sent[i].maxTokens
  }

  lemma {:induction false} ModestUse(space: char -> bool, task: string, maxTokens: int, replies: nat -> Reply, i: nat)
    requires var sent := Whole(space, task, maxTokens, replies).sent; i <= |sent| && Modest(sent, replies)
    ensures 0 <= OutUse(replies, i) <= Least(Budget(maxTokens), CEILING * i)
  {
    hide Whole;
    if i > 0 {
      ModestUse(space, task, maxTokens, replies, i - 1);
      SentIs(space, task, maxTokens, replies, i - 1);
    }
  }

  /** Then the reported output stays within the budget, and within what eight requests can give; so does
      what was really used, a last reply without text included. */
  lemma OutputStaysInBudget(space: char -> bool, task: string, maxTokens: int, replies: nat -> Reply)
    requires Modest(Whole(space, task, maxTokens, replies).sent, replies)
    ensures var t := Whole(space, task, maxTokens, replies);
            var n := |t.sent|;
            && 0 <= t.outTokens <= Least(Budget(maxTokens), 8 * 16000)
            && n > 0 && (replies(n - 1).Reply? && replies(n - 1).text == "" ==> t.outTokens + replies(n - 1).outTokens <= Least(Budget(maxTokens), 8 * 16000))
  {
    hide Whole, Budget;
    var n := WholeIs(space, task, maxTokens, replies);
    ModestUse(space, task, maxTokens, replies, n);
    ModestUse(space, task, maxTokens, replies, n - 1);
    SentIs(space, task, maxTokens, replies, n - 1);
  }

  lemma {:induction false} FullUse(space: char -> bool, task: string, maxTokens: int, replies: nat -> Reply, i: nat)
    requires i <= |Whole(space, task, maxTokens, replies).sent|
    requires var sent := Whole(space, task, maxTokens, replies).sent; forall k: nat | k < i :: Counts(replies(k)) && replies(k).outTokens == sent[k].maxTokens
    ensures OutUse(replies, i) == Least(Budget(maxTokens), CEILING * i)
  {
    hide Whole;
    if i > 0 {
      FullUse(space, task, maxTokens, replies, i - 1);
      SentIs(space, task, maxTokens, replies, i - 1);
      assert Counts(replies(i - 1));
    }
  }

  /** When every reply is full and cut off by the limit, the whole budget is used, up to 128000. */
  lemma FullRepliesUseTheBudget(space: char -> bool, task: string, maxTokens: int, replies: nat -> Reply)
    requires var sent := Whole(space, task, maxTokens, replies).sent;
             forall i: nat | i < |sent| :: GoesOn(replies(i)) && replies(i).outTokens == sent[i].maxTokens
    ensures Whole(space, task, maxTokens, replies).outTokens == Least(Budget(maxTokens), 8 * 16000)
  {
    hide Whole, Budget, OutUse;
    var n := WholeIs(space, task, maxTokens, replies);
    RunGoesOnExactly(space, task, maxTokens, replies);
    FullUse(space, task, maxTokens, replies, n);
  }

  // ----- the conversation -----

  /** User and assistant take turns, and the user has the first and the last word. */
  predicate TakesTurns(turns: seq<Turn>) {
    |turns| % 2 == 1 && forall i | 0 <= i < |turns| :: turns[i].User? <==> i % 2 == 0
  }

  lemma {:induction false} TextsGrow(replies: nat -> Reply, i: nat)
    requires i > 0 && Counts(replies(0))
    ensures Texts(replies, i) != ""
  {
    if i > 1 {
      TextsGrow(replies, i - 1);
    } else {
      assert Texts(replies, 0) == "";
    }
  }

  /** Every request begins with what the user asked for and takes turns; from the second on, the assistant's one turn is
      all text so far without trailing blanks, which is no turn to speak of exactly if there were only blanks. */
  lemma {:induction false} ConversationIsWellFormed(space: char -> bool, task: string, maxTokens: int, replies: nat -> Reply, i: nat)
    requires i < |Whole(space, task, maxTokens, replies).sent|
    ensures var turns := Whole(space, task, maxTokens, replies).sent[i].turns;
            && TakesTurns(turns) && turns[0] == User(task) && (i == 0 <==> |turns| == 1)
            && (i > 0 ==>
                  && |turns| == 3 && turns[2] == User("Continue exactly where you left off. Do not repeat any text already written.") && turns[1] == Assistant(TrimEnd(space, Texts(replies, i)))
                  && (turns[1].content == "" <==> forall c | c in Texts(replies, i) :: space(c)))
  {
    hide Whole, Budget, Asked, Texts, OutUse, TrimEnd, Stops;
    SentIs(space, task, maxTokens, replies, i);
    RunGoesOnExactly(space, task, maxTokens, replies);
    if i > 0 {
      assert GoesOn(replies(0));
      TextsGrow(replies, i);
      TrimsAllExactly(space, Texts(replies, i));
    } else {
      assert Texts(replies, i) == "" by { NoTexts(replies); }
    }
  }

  lemma NoTexts(replies: nat -> Reply)
    ensures Texts(replies, 0) == ""
  {
  }

  lemma {:induction false} TrimsAllExactly(space: char -> bool, s: string)
    ensures TrimEnd(space, s) == "" <==> forall c | c in s :: space(c)
  {
  }
}
