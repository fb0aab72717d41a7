/** Cutting a prompt down to a token limit: the first paragraph always, the second if it fits, and as many
    words of the third as still fit. Tokens are estimated at 1.3 for each word. */
module PromptTrim {
  import opened Text

  const TOKENS_PER_WORD := 1.3
  const WORTH_ADDING := 500

  function Estimate(words: nat): int {
    (13 * words) / 10
  }

  /** `_estimate_tokens`, rounded down. */
  function EstimateTokens(space: Blank, text: string): int {
    Estimate(|Words(space, text)|)
  }

  predicate AlreadyFits(space: Blank, prompt: string, limit: int) {
    (|Words(space, prompt)| as real) * TOKENS_PER_WORD <= limit as real
  }

  /** How many of `n` words fit into `tokens`. */
  function Fitting(n: nat, tokens: nat): nat {
    if 13 * n <= 10 * tokens then n else (10 * tokens) / 13
  }

  /** The mode paragraph, if the two together are estimated to fit. */
  function WithMode(space: Blank, sections: seq<string>, limit: int): string
    requires sections != []
  {
    if |sections| > 1 && EstimateTokens(space, sections[0] + PARAGRAPH + sections[1]) <= limit
    then sections[0] + PARAGRAPH + sections[1] else sections[0]
  }

  function Optimized(space: Blank, prompt: string, limit: int): string {
    if AlreadyFits(space, prompt, limit) then prompt
    else
      var sections := Paragraphs(prompt);
      var kept := WithMode(space, sections, limit);
      var available := limit - EstimateTokens(space, kept);
      if |sections| > 2 && available > WORTH_ADDING then
        var words := Words(space, sections[2]);
        kept + PARAGRAPH + Join(" ", words[..Fitting(|words|, available)])
      else kept
  }

  method OptimizeForTokenLimit(space: Blank, prompt: string, limit: int) returns (optimized: string)
    ensures optimized == Optimized(space, prompt, limit)
  {
    var estimated := (|Words(space, prompt)| as real) * TOKENS_PER_WORD;
    if estimated <= limit as real {
      return prompt;
    }
    var sections := Paragraphs(prompt);
    var optimizedSections := [sections[0]];
    if |sections| > 1 {
      JoinOneMore(optimizedSections, sections[1]);
      if EstimateTokens(space, Join(PARAGRAPH, optimizedSections + [sections[1]])) <= limit {
        optimizedSections := optimizedSections + [sections[1]];
      }
    }
    assert Join(PARAGRAPH, optimizedSections) == WithMode(space, sections, limit);
    if |sections| > 2 {
      var available := limit - EstimateTokens(space, Join(PARAGRAPH, optimizedSections));
      if available > WORTH_ADDING {
        var trimmed := TrimContextToTokens(space, sections[2], available);
        JoinOneMore(optimizedSections, trimmed);
        optimizedSections := optimizedSections + [trimmed];
      }
    }
    optimized := Join(PARAGRAPH, optimizedSections);
  }

  lemma {:induction false} JoinOneMore(parts: seq<string>, last: string)
    requires parts != []
    ensures Join(PARAGRAPH, parts + [last]) == Join(PARAGRAPH, parts) + PARAGRAPH + last
  {
    if |parts| > 1 {
      JoinOneMore(parts[1..], last);
      assert (parts + [last])[1..] == parts[1..] + [last];
    } else {
      assert (parts + [last])[1..] == [last];
    }
  }

  /** Words are taken as long as the running estimate stays within the limit. */
  method TrimContextToTokens(space: Blank, context: string, maxTokens: nat) returns (trimmed: string)
    ensures var words := Words(space, context); trimmed == Join(" ", words[..Fitting(|words|, maxTokens)])
  {
    var words := Words(space, context);
    var estimated, taken := 0.0, [];
    var i := 0;
    WordsAreWords(space, context);
    while i < |words|
      invariant 0 <= i <= |words| && taken == words[..i] && estimated == (i as real) * TOKENS_PER_WORD
      invariant 13 * i <= 10 * maxTokens
    {
      OneWord(space, words[i]);
      var wordTokens := (|Words(space, words[i])| as real) * TOKENS_PER_WORD;
      if estimated + wordTokens > maxTokens as real {
        break;
      }
      taken := taken + [words[i]];
      estimated := estimated + wordTokens;
      i := i + 1;
    }
    assert i == Fitting(|words|, maxTokens);
    trimmed := Join(" ", taken);
  }

  // ----- what the result is worth -----

  /** A prompt whose estimate is within the limit even before rounding down is left alone. */
  lemma FittingIsUnchanged(space: Blank, prompt: string, limit: int)
    requires AlreadyFits(space, prompt, limit)
    ensures Optimized(space, prompt, limit) == prompt && EstimateTokens(space, prompt) <= limit
  {
  }

  /** As many words are taken as fit, and not one more. */
  lemma FittingIsMost(n: nat, tokens: nat)
    ensures var k := Fitting(n, tokens);
            k <= n && (k as real) * TOKENS_PER_WORD <= tokens as real && (k < n ==> ((k + 1) as real) * TOKENS_PER_WORD > tokens as real)
  {
  }

  lemma {:induction false} WordsOfParagraphs(space: Blank, parts: seq<string>)
    requires space('\n') && parts != []
    ensures |Words(space, Join(PARAGRAPH, parts))| >= |Words(space, parts[0])|
  {
    if |parts| > 1 {
      WordsAcrossParagraphs(space, parts[0], Join(PARAGRAPH, parts[1..]));
    }
  }

  /** The words of a section, none if there is no such section. */
  function SectionWords(space: Blank, sections: seq<string>, i: nat): seq<string> {
    if i < |sections| then Words(space, sections[i]) else []
  }

  /** Whether the second section is kept, from the words of the first two. */
  predicate KeepsSecond(space: Blank, sections: seq<string>, limit: int) {
    |sections| > 1 && (13 * (|SectionWords(space, sections, 0)| + |SectionWords(space, sections, 1)|)) / 10 <= limit
  }

  /** The words of the first sections kept. */
  function FirstWords(space: Blank, sections: seq<string>, limit: int): seq<string> {
    SectionWords(space, sections, 0) + if KeepsSecond(space, sections, limit) then SectionWords(space, sections, 1) else []
  }

  /** The tokens that are left for the third. */
  function Room(space: Blank, sections: seq<string>, limit: int): int {
    limit - (13 * |FirstWords(space, sections, limit)|) / 10
  }

  /** How many words of the third section are kept: as many as fit, if there is room for more than 500 tokens. */
  function ThirdKept(space: Blank, sections: seq<string>, limit: int): nat {
    var n, room := |SectionWords(space, sections, 2)|, Room(space, sections, limit);
    if |sections| <= 2 || room <= 500 then 0 else if 13 * n <= 10 * room then n else (10 * room) / 13
  }

  /** The kept words, section by section. */
  function KeptWords(space: Blank, prompt: string, limit: int): seq<string> {
    var sections := Paragraphs(prompt);
    FirstWords(space, sections, limit) + SectionWords(space, sections, 2)[..ThirdKept(space, sections, limit)]
  }

  lemma ModeIsSecond(space: Blank, sections: seq<string>, limit: int)
    requires space('\n') && sections != []
    ensures WithMode(space, sections, limit) == sections[0] + if KeepsSecond(space, sections, limit) then "\n\n" + sections[1] else ""
    ensures Words(space, WithMode(space, sections, limit)) == FirstWords(space, sections, limit)
    ensures EstimateTokens(space, WithMode(space, sections, limit)) == limit - Room(space, sections, limit)
  {
    hide Words;
    if |sections| > 1 {
      WordsAcrossParagraphs(space, sections[0], sections[1]);
      assert sections[0] + PARAGRAPH + sections[1] == sections[0] + ("\n\n" + sections[1]);
    }
  }

  /** The text of a trimmed prompt: the first section, the second if both fit, and a beginning of the third, its words
      joined by blanks. */
  lemma {:induction false} TrimmedText(space: Blank, prompt: string, limit: int)
    requires space(' ') && space('\n') && !AlreadyFits(space, prompt, limit)
    ensures var sections := Paragraphs(prompt);
            && sections != []
            && Optimized(space, prompt, limit)
               == sections[0]
                  + (if KeepsSecond(space, sections, limit) then "\n\n" + sections[1] else "")
                  + (if |sections| > 2 && Room(space, sections, limit) > 500
                     then "\n\n" + Join(" ", SectionWords(space, sections, 2)[..ThirdKept(space, sections, limit)]) else "")
  {
    hide Words, Paragraphs, WithMode, Join, AlreadyFits;
    var sections := Paragraphs(prompt);
    ModeIsSecond(space, sections, limit);
    var kept := WithMode(space, sections, limit);
    if |sections| > 2 && Room(space, sections, limit) > 500 {
      var words := Words(space, sections[2]);
      assert kept + PARAGRAPH + Join(" ", words[..Fitting(|words|, Room(space, sections, limit))])
          == kept + ("\n\n" + Join(" ", words[..ThirdKept(space, sections, limit)]));
    }
  }

  /** The words of a trimmed prompt: those of the first section, of the second if both fit, and a beginning
      of the words of the third. */
  lemma TrimmedWords(space: Blank, prompt: string, limit: int)
    requires space(' ') && space('\n') && !AlreadyFits(space, prompt, limit)
    ensures Words(space, Optimized(space, prompt, limit)) == KeptWords(space, prompt, limit)
  {
    hide Words, Paragraphs, WithMode, Join, AlreadyFits;
    var sections := Paragraphs(prompt);
    var kept := WithMode(space, sections, limit);
    ModeIsSecond(space, sections, limit);
    if |sections| > 2 && Room(space, sections, limit) > 500 {
      var words := Words(space, sections[2]);
      var some := words[..ThirdKept(space, sections, limit)];
      WordsAreWords(space, sections[2]);
      WordsOfJoin(space, some);
      WordsAcrossParagraphs(space, kept, Join(" ", some));
    }
  }

  lemma KeptWordsFit(base: nat, more: nat, n: nat, limit: int)
    requires limit - Estimate(base) > WORTH_ADDING && more == Fitting(n, limit - Estimate(base))
    ensures Estimate(base + more) <= limit
  {
  }

  lemma ModeFitsExactly(space: Blank, sections: seq<string>, limit: int)
    requires space('\n') && sections != []
    ensures EstimateTokens(space, WithMode(space, sections, limit)) <= limit <==> EstimateTokens(space, sections[0]) <= limit
  {
    hide Words;
    if |sections| > 1 {
      WordsAcrossParagraphs(space, sections[0], sections[1]);
    }
  }

  /** The returned prompt is estimated within the limit exactly when the first paragraph alone is: rounding
      the estimate down at each step never adds up to a token too many. */
  lemma {:induction false} ResultFitsExactly(space: Blank, prompt: string, limit: int)
    requires space(' ') && space('\n')
    ensures EstimateTokens(space, Optimized(space, prompt, limit)) <= limit <==> EstimateTokens(space, Paragraphs(prompt)[0]) <= limit
  {
    hide Words, Paragraphs, WithMode, Join, Fitting, Optimized;
    var sections := Paragraphs(prompt);
    ParagraphsJoin(prompt);
    WordsOfParagraphs(space, sections);
    if AlreadyFits(space, prompt, limit) {
      FittingIsUnchanged(space, prompt, limit);
    } else {
      var kept := WithMode(space, sections, limit);
      TrimmedWords(space, prompt, limit);
      ModeFitsExactly(space, sections, limit);
      if |sections| > 2 && limit - EstimateTokens(space, kept) > WORTH_ADDING {
        var n := |Words(space, sections[2])|;
        var more := Fitting(n, limit - EstimateTokens(space, kept));
        FittingIsMost(n, limit - EstimateTokens(space, kept));
        KeptWordsFit(|Words(space, kept)|, more, n, limit);
      }
    }
  }

  /** How many words the first paragraph and, if it is added, the second have. */
  function Base(sections: nat, first: nat, second: nat, limit: int): nat {
    if sections > 1 && Estimate(first + second) <= limit then first + second else first
  }

  /** Whether a prompt that had to be trimmed passes the test afterwards, from the number of its sections and the
      words of the first three. If the third is cut, what rounding down made of the first two must be no more
      than what the whole words of the third leave of the room. */
  predicate FitsAfterTrim(sections: nat, first: nat, second: nat, third: nat, limit: int) {
    var base := Base(sections, first, second, limit);
    var available := limit - Estimate(base);
    if sections <= 2 || available <= 500 then 13 * base <= 10 * limit
    else if 13 * third <= 10 * available then 13 * (base + third) <= 10 * limit
    else (13 * base) % 10 <= (10 * available) % 13
  }

  function WordsIn(space: Blank, sections: seq<string>, i: nat): nat {
    |SectionWords(space, sections, i)|
  }

  lemma CutLeavesRest(base: nat, third: nat, limit: int)
    requires var available := limit - Estimate(base); available > WORTH_ADDING && 13 * third > 10 * available
    ensures var available := limit - Estimate(base);
            13 * (base + Fitting(third, available)) <= 10 * limit <==> (13 * base) % 10 <= (10 * available) % 13
  {
    var available := limit - Estimate(base);
    assert 13 * base == 10 * Estimate(base) + (13 * base) % 10;
    assert 10 * available == 13 * Fitting(third, available) + (10 * available) % 13;
  }

  lemma BaseIsCounted(space: Blank, sections: seq<string>, limit: int)
    requires space('\n') && sections != []
    ensures |Words(space, WithMode(space, sections, limit))| == Base(|sections|, WordsIn(space, sections, 0), WordsIn(space, sections, 1), limit)
  {
    hide Words;
    if |sections| > 1 {
      WordsAcrossParagraphs(space, sections[0], sections[1]);
    }
  }

  /** A trimmed prompt passes the test it has just gone through exactly when the word counts of its first three
      paragraphs say so; if the first paragraph is estimated within the limit, it is too long by less than
      one token. */
  lemma {:induction false} TrimmedFitsExactly(space: Blank, prompt: string, limit: int)
    requires space(' ') && space('\n') && !AlreadyFits(space, prompt, limit)
    ensures var sections := Paragraphs(prompt);
            AlreadyFits(space, Optimized(space, prompt, limit), limit)
            <==> FitsAfterTrim(|sections|, WordsIn(space, sections, 0), WordsIn(space, sections, 1), WordsIn(space, sections, 2), limit)
    ensures EstimateTokens(space, Paragraphs(prompt)[0]) <= limit ==>
              (|Words(space, Optimized(space, prompt, limit))| as real) * TOKENS_PER_WORD < limit as real + 1.0
  {
    hide Words, Paragraphs, WithMode, Join, Optimized, Base;
    var sections := Paragraphs(prompt);
    var kept := WithMode(space, sections, limit);
    var available := limit - EstimateTokens(space, kept);
    TrimmedWords(space, prompt, limit);
    ModeIsSecond(space, sections, limit);
    BaseIsCounted(space, sections, limit);
    ResultFitsExactly(space, prompt, limit);
    if |sections| > 2 && available > WORTH_ADDING {
      var third := |Words(space, sections[2])|;
      FittingIsMost(third, available);
      if 13 * third > 10 * available {
        CutLeavesRest(|Words(space, kept)|, third, limit);
      }
    }
  }

  // ----- a prompt that stays too long -----

  const LIMIT := 4000

  function ManyWords(n: nat): seq<string> {
    seq(n, _ => "a")
  }

  /** Paragraphs of one, one and 4000 words. */
  function LongPrompt(): string {
    "a" + PARAGRAPH + ("a" + PARAGRAPH + Join(" ", ManyWords(4000)))
  }

  lemma {:induction false} JoinedHasNoBreak(words: seq<string>)
    requires forall i | 0 <= i < |words| :: words[i] == "a"
    ensures '\n' !in Join(" ", words)
  {
    if |words| > 1 {
      JoinedHasNoBreak(words[1..]);
    }
  }

  /** At the limit of 4000 tokens, 3077 words are kept, and they are estimated at 4000.1 tokens. */
  lemma LongPromptStaysTooLong(space: Blank)
    requires space(' ') && space('\n') && !space('a')
    ensures |Words(space, Optimized(space, LongPrompt(), LIMIT))| == 3077
    ensures !AlreadyFits(space, Optimized(space, LongPrompt(), LIMIT), LIMIT)
  {
    hide Words, Paragraphs, Join, Optimized;
    var third := Join(" ", ManyWords(4000));
    JoinedHasNoBreak(ManyWords(4000));
    LoneParagraph(third);
    FirstParagraph("a", third);
    FirstParagraph("a", "a" + PARAGRAPH + third);
    assert Paragraphs(LongPrompt()) == ["a", "a", third];
    OneWord(space, "a");
    WordsOfJoin(space, ManyWords(4000));
    WordsAcrossParagraphs(space, "a", third);
    WordsAcrossParagraphs(space, "a", "a" + PARAGRAPH + third);
    WordsAcrossParagraphs(space, "a", "a");
    assert |Words(space, LongPrompt())| == 4002;
    TrimmedWords(space, LongPrompt(), LIMIT);
  }
}
