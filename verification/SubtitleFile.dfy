/** Reading the subtitle file again: the blocks between empty lines give back every cue. */
module SubtitleFile {
  import opened Wrappers
  import opened Text
  import opened Subtitles

  // ----- a reader -----

  /** Number, times in milliseconds, and text. */
  datatype Line = Line(number: nat, start: nat, end: nat, text: string)

  function Find(s: string, c: char): (i: nat)
    ensures i <= |s| && (i < |s| ==> s[i] == c) && forall k | 0 <= k < i :: s[k] != c
  {
    if s == "" || s[0] == c then 0 else 1 + Find(s[1..], c)
  }

  /** A line with two times and an arrow between them. */
  function ReadTimes(s: string): Option<(nat, nat)> {
    var k := Find(s, ' ');
    if k + 5 <= |s| && s[k..k + 5] == " --> " then
      match (ParseTime(s[..k]), ParseTime(s[k + 5..]))
      case (Some(a), Some(b)) => Some((a, b))
      case _ => None
    else None
  }

  /** A number, a line of times, and the rest as the text. */
  function ReadBlock(s: string): Option<Line> {
    var i := Find(s, '\n');
    if i == |s| || !IsDigits(s[..i]) then None
    else
      var rest := s[i + 1..];
      var j := Find(rest, '\n');
      if j == |rest| then None
      else
        match ReadTimes(rest[..j])
        case None => None
        case Some(times) => Some(Line(Value(s[..i]), times.0, times.1, rest[j + 1..]))
  }

  // ----- blocks -----

  /** What is written for a cue, without the empty line. */
  function Block(c: Cue): string {
    Decimal(c.number) + "\n" + (SrtTime(c.start) + " --> " + SrtTime(c.end)) + "\n" + c.text
  }

  function Blocks(cues: seq<Cue>): seq<string> {
    seq(|cues|, i requires 0 <= i < |cues| => Block(cues[i]))
  }

  lemma BlockIs(c: Cue)
    ensures CueText(c) == Block(c) + "\n\n"
  {
    hide Decimal, SrtTime;
    CueTextIs(c);
    var a, b, d := Decimal(c.number), SrtTime(c.start), SrtTime(c.end);
    assert a + "\n" + b + " --> " + d + "\n" + c.text + "\n\n" == (a + "\n" + (b + " --> " + d) + "\n" + c.text) + "\n\n";
  }

  /** No empty line in it, and no line break at its end. */
  ghost predicate OneBlock(s: string) {
    && (forall i | 0 <= i < |s| - 1 :: !(s[i] == '\n' && s[i + 1] == '\n'))
    && s != "" && s[|s| - 1] != '\n'
  }

  lemma {:induction false} BlockEnds(s: string, rest: string)
    requires OneBlock(s)
    ensures ParagraphEnd(s + (PARAGRAPH + rest)) == |s|
  {
    var t := s + (PARAGRAPH + rest);
    if |s| == 1 {
      assert t[1..] == PARAGRAPH + rest && t[0] == s[0];
      assert (PARAGRAPH + rest)[..2] == PARAGRAPH;
    } else {
      assert t[1..] == s[1..] + (PARAGRAPH + rest) && t[0] == s[0] && t[1] == s[1];
      BlockEnds(s[1..], rest);
      assert t[..2] != PARAGRAPH;
    }
  }

  lemma {:induction false} BlockFirst(s: string, rest: string)
    requires OneBlock(s)
    ensures Paragraphs(s + PARAGRAPH + rest) == [s] + Paragraphs(rest)
  {
    hide ParagraphEnd, Paragraphs, OneBlock;
    var t := s + PARAGRAPH + rest;
    assert t == s + (PARAGRAPH + rest);
    BlockEnds(s, rest);
    SplitsAt(t, |s|);
    assert t[..|s|] == s && t[|s| + 2..] == rest;
  }

  lemma {:induction false} SplitsAt(t: string, j: nat)
    requires j < |t| && ParagraphEnd(t) == j
    ensures j + 2 <= |t| && Paragraphs(t) == [t[..j]] + Paragraphs(t[j + 2..])
  {
    hide ParagraphEnd;
  }

  lemma {:induction false} RenderConcat(a: seq<Cue>, b: seq<Cue>)
    ensures Render(a + b) == Render(a) + Render(b)
  {
    hide CueText, Render;
    if b == [] {
      assert a + b == a;
      NothingRendered();
    } else {
      var n := |b| - 1;
      RenderConcat(a, b[..n]);
      assert a + b == (a + b[..n]) + [b[n]] && b == b[..n] + [b[n]];
      RenderOneMore(a + b[..n], b[n]);
      RenderOneMore(b[..n], b[n]);
    }
  }

  lemma {:induction false} NothingRendered()
    ensures Render([]) == ""
  {
  }

  lemma {:induction false} RenderFront(cues: seq<Cue>)
    requires cues != []
    ensures Render(cues) == CueText(cues[0]) + Render(cues[1..])
  {
    hide CueText, Render;
    NothingRendered();
    RenderOneMore([], cues[0]);
    assert [] + [cues[0]] == [cues[0]] && [cues[0]] + cues[1..] == cues;
    RenderConcat([cues[0]], cues[1..]);
  }

  lemma {:induction false} FileIsBlocks(cues: seq<Cue>)
    requires forall c | c in cues :: OneBlock(Block(c))
    ensures Paragraphs(Render(cues)) == Blocks(cues) + [""]
  {
    hide Block, OneBlock, CueText, ParagraphEnd, Paragraphs;
    if cues == [] {
      LoneParagraph("");
    } else {
      RenderFront(cues);
      BlockIs(cues[0]);
      FileIsBlocks(cues[1..]);
      BlockFirst(Block(cues[0]), Render(cues[1..]));
      assert Blocks(cues) == [Block(cues[0])] + Blocks(cues[1..]);
    }
  }

  // ----- what a block says -----

  lemma DigitsAreNoBreaks(s: string)
    requires IsDigits(s)
    ensures '\n' !in s && ' ' !in s
  {
  }

  lemma {:induction false} TimeIsPlain(t: real)
    requires t >= 0.0
    ensures '\n' !in SrtTime(t) && ' ' !in SrtTime(t) && SrtTime(t) != ""
  {
    hide ClockOf, Padded, IsDigits, Value;
    var c := ClockOf(t);
    ClockFields(t);
    PaddedIsRead(c.h, 2);
    PaddedIsRead(c.m, 2);
    PaddedIsRead(c.s, 2);
    PaddedIsRead(c.ms, 3);
    DigitsAreNoBreaks(Padded(c.h, 2));
    DigitsAreNoBreaks(Padded(c.m, 2));
    DigitsAreNoBreaks(Padded(c.s, 2));
    DigitsAreNoBreaks(Padded(c.ms, 3));
  }

  lemma {:induction false} FindIs(s: string, c: char, rest: string)
    requires c !in s
    ensures Find(s + [c] + rest, c) == |s|
  {
    var t := s + [c] + rest;
    assert t[|s|] == c && forall k | 0 <= k < |s| :: t[k] == s[k];
  }

  lemma {:induction false} TimesAreRead(start: real, end: real)
    requires start >= 0.0 && end >= 0.0
    ensures (1000.0 * start).Floor >= 0 && (1000.0 * end).Floor >= 0
    ensures ReadTimes(SrtTime(start) + " --> " + SrtTime(end)) == Some(((1000.0 * start).Floor as nat, (1000.0 * end).Floor as nat))
  {
    hide ParseTime, SrtTime, Find;
    var a, b := SrtTime(start), SrtTime(end);
    TimeIsPlain(start);
    PrintedTimeIsRead(start);
    PrintedTimeIsRead(end);
    var s := a + " --> " + b;
    assert s == a + [' '] + ("--> " + b);
    FindIs(a, ' ', "--> " + b);
    assert s[..|a|] == a && s[|a|..|a| + 5] == " --> " && s[|a| + 5..] == b;
  }

  lemma {:induction false} ThreeLinesAreRead(number: string, times: string, text: string, ms: (nat, nat))
    requires IsDigits(number) && '\n' !in number && '\n' !in times && ReadTimes(times) == Some(ms)
    ensures ReadBlock(number + "\n" + times + "\n" + text) == Some(Line(Value(number), ms.0, ms.1, text))
  {
    hide ReadTimes, Find, Value, IsDigits;
    var s, rest := number + "\n" + times + "\n" + text, times + "\n" + text;
    assert s == number + ['\n'] + rest;
    FindIs(number, '\n', rest);
    assert s[..|number|] == number && s[|number| + 1..] == rest;
    assert rest == times + ['\n'] + text;
    FindIs(times, '\n', text);
    assert rest[..|times|] == times && rest[|times| + 1..] == text;
  }

  lemma ArrowIsPlain(a: string, b: string)
    requires '\n' !in a && '\n' !in b
    ensures '\n' !in a + " --> " + b && a + " --> " + b != ""
  {
  }

  /** A cue whose text is one line reads back. */
  lemma {:induction false} BlockIsRead(c: Cue)
    requires c.start >= 0.0 && c.end >= 0.0 && c.text != "" && '\n' !in c.text
    ensures (1000.0 * c.start).Floor >= 0 && (1000.0 * c.end).Floor >= 0
    ensures OneBlock(Block(c))
    ensures ReadBlock(Block(c)) == Some(Line(c.number, (1000.0 * c.start).Floor, (1000.0 * c.end).Floor, c.text))
  {
    hide ReadTimes, SrtTime, Find, Decimal, Value, IsDigits, OneBlock, ReadBlock;
    var number, times := Decimal(c.number), SrtTime(c.start) + " --> " + SrtTime(c.end);
    DecimalIsRead(c.number);
    DigitsAreNoBreaks(number);
    TimeIsPlain(c.start);
    TimeIsPlain(c.end);
    ArrowIsPlain(SrtTime(c.start), SrtTime(c.end));
    TimesAreRead(c.start, c.end);
    ThreeLinesAreRead(number, times, c.text, ((1000.0 * c.start).Floor as nat, (1000.0 * c.end).Floor as nat));
    ThreeLines(number, times, c.text);
  }

  lemma ThreeLines(a: string, b: string, c: string)
    requires a != "" && b != "" && c != "" && '\n' !in a && '\n' !in b && '\n' !in c
    ensures OneBlock(a + "\n" + b + "\n" + c)
  {
    var s := a + "\n" + b + "\n" + c;
    assert forall i | 0 <= i < |s| :: s[i] == '\n' <==> i == |a| || i == |a| + 1 + |b|;
  }

  lemma {:induction false} JoinIsOneLine(space: Blank, words: seq<string>)
    requires space('\n') && words != [] && forall w | w in words :: IsWord(space, w)
    ensures Join(" ", words) != "" && '\n' !in Join(" ", words)
  {
    assert IsWord(space, words[0]);
    if |words| > 1 {
      JoinIsOneLine(space, words[1..]);
    }
  }

  lemma {:induction false} CueIsOneLine(space: Blank, t: Timeline, k: nat)
    requires space('\n') && WellFormed(space, t) && InOrder(t) && k < |t.cues|
    ensures var c := t.cues[k]; c.number == k + 1 && c.start >= 0.0 && c.end >= 0.0 && c.text != "" && '\n' !in c.text
  {
    hide Words, Join, IsWord;
    var c := t.cues[k];
    WordsAreWords(space, c.text);
    JoinIsOneLine(space, Words(space, c.text));
  }

  /** The file splits at its empty lines into one block for each cue, and an empty rest; each block gives back the
      number of its cue, counted from 1, its times in milliseconds, rounded down, and its text. */
  lemma {:induction false} FileReadsBack(space: Blank, scenes: seq<Scene>, i: nat)
    requires space(' ') && space('\n') && forall k | 0 <= k < |scenes| :: Duration(scenes[k]) >= 0.0
    requires i < |After(space, scenes, |scenes|).cues|
    ensures var cues := After(space, scenes, |scenes|).cues;
            var blocks := Paragraphs(SubtitleFile(space, scenes));
            && |blocks| == |cues| + 1 && blocks[|cues|] == ""
            && (1000.0 * cues[i].start).Floor >= 0 && (1000.0 * cues[i].end).Floor >= 0
            && ReadBlock(blocks[i]) == Some(Line(i + 1, (1000.0 * cues[i].start).Floor, (1000.0 * cues[i].end).Floor, cues[i].text))
  {
    hide After, Words, Paragraphs, Block, ReadBlock, OneBlock, Join, WellFormed, InOrder, Render;
    var t := After(space, scenes, |scenes|);
    CuesAreTheNarration(space, scenes, |scenes|);
    forall c | c in t.cues
      ensures OneBlock(Block(c))
    {
      var k :| 0 <= k < |t.cues| && t.cues[k] == c;
      CueIsOneLine(space, t, k);
      BlockIsRead(c);
    }
    FileIsBlocks(t.cues);
    CueIsOneLine(space, t, i);
    BlockIsRead(t.cues[i]);
  }
}
