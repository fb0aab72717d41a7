/** Python's `str.split`, `str.join` and splitting into paragraphs. `space` says which characters are blank. */
module Text {

  type Blank = char -> bool

  function WordEnd(space: Blank, s: string, i: nat): (j: nat)
    requires i <= |s|
    ensures i <= j <= |s| && (forall k | i <= k < j :: !space(s[k])) && (j < |s| ==> space(s[j]))
    decreases |s| - i
  {
    if i < |s| && !space(s[i]) then WordEnd(space, s, i + 1) else i
  }

  /** `s.split()`: the maximal runs of characters that are not blank. */
  function Words(space: Blank, s: string): seq<string>
    decreases |s|
  {
    if s == "" then []
    else if space(s[0]) then Words(space, s[1..])
    else
      var n := WordEnd(space, s, 1);
      [s[..n]] + Words(space, s[n..])
  }

  /** `sep.join(parts)` */
  function Join(sep: string, parts: seq<string>): string {
    if parts == [] then ""
    else if |parts| == 1 then parts[0]
    else parts[0] + sep + Join(sep, parts[1..])
  }

  const PARAGRAPH := "\n\n"

  /** Where the first empty line begins, or the end. */
  function ParagraphEnd(s: string): (j: nat)
    ensures j <= |s| && (j < |s| ==> j + 2 <= |s| && s[j..j + 2] == PARAGRAPH)
  {
    if |s| < 2 then |s|
    else if s[..2] == PARAGRAPH then 0
    else ParagraphEnd(s[1..]) + 1
  }

  /** `s.split("\n\n")` */
  function Paragraphs(s: string): (r: seq<string>)
    ensures r != []
    decreases |s|
  {
    var j := ParagraphEnd(s);
    if j == |s| then [s] else [s[..j]] + Paragraphs(s[j + 2..])
  }

  lemma {:induction false} ParagraphsJoin(s: string)
    ensures Join(PARAGRAPH, Paragraphs(s)) == s
    decreases |s|
  {
    hide ParagraphEnd, Join;
    var j := ParagraphEnd(s);
    if j < |s| {
      ParagraphsJoin(s[j + 2..]);
      JoinCons(PARAGRAPH, s[..j], Paragraphs(s[j + 2..]));
      assert s == s[..j] + s[j..j + 2] + s[j + 2..];
    } else {
      JoinOne(PARAGRAPH, s);
    }
  }

  /** Without a line break there is one paragraph. */
  lemma {:induction false} LoneParagraph(s: string)
    requires '\n' !in s
    ensures Paragraphs(s) == [s]
  {
    hide Paragraphs;
    NoBreakBefore(s, "");
    assert s + "" == s;
    ParagraphsAt(s);
  }

  lemma {:induction false} FirstParagraph(s: string, rest: string)
    requires '\n' !in s
    ensures Paragraphs(s + PARAGRAPH + rest) == [s] + Paragraphs(rest)
  {
    var t := s + PARAGRAPH + rest;
    NoBreakBefore(s, PARAGRAPH + rest);
    assert s + (PARAGRAPH + rest) == t;
    assert t[..|s|] == s && t[|s| + 2..] == rest;
  }

  lemma {:induction false} ParagraphsAt(s: string)
    requires ParagraphEnd(s) == |s|
    ensures Paragraphs(s) == [s]
  {
  }

  lemma {:induction false} NoBreakBefore(s: string, rest: string)
    requires '\n' !in s && (rest == "" || (|rest| >= 2 && rest[..2] == PARAGRAPH))
    ensures ParagraphEnd(s + rest) == |s|
  {
    if s == "" {
      assert s + rest == rest;
    } else {
      NoBreakBefore(s[1..], rest);
      assert (s + rest)[1..] == s[1..] + rest && (s + rest)[0] == s[0];
    }
  }

  lemma {:induction false} JoinCons(sep: string, part: string, rest: seq<string>)
    requires rest != []
    ensures Join(sep, [part] + rest) == part + sep + Join(sep, rest)
  {
  }

  lemma {:induction false} JoinOne(sep: string, part: string)
    ensures Join(sep, [part]) == part
  {
  }

  // ----- words -----

  predicate IsWord(space: Blank, w: string) {
    w != "" && forall k | 0 <= k < |w| :: !space(w[k])
  }

  lemma {:induction false} WordsAreWords(space: Blank, s: string)
    ensures forall w | w in Words(space, s) :: IsWord(space, w)
    decreases |s|
  {
    if s == "" {
    } else if space(s[0]) {
      WordsAreWords(space, s[1..]);
    } else {
      WordsAreWords(space, s[WordEnd(space, s, 1)..]);
    }
  }

  lemma {:induction false} SameWordEnd(space: Blank, a: string, c: char, b: string, i: nat)
    requires space(c) && i <= |a|
    ensures WordEnd(space, a + [c] + b, i) == WordEnd(space, a, i)
    decreases |a| - i
  {
    var t := a + [c] + b;
    if i < |a| {
      assert t[i] == a[i];
      if !space(a[i]) {
        SameWordEnd(space, a, c, b, i + 1);
      }
    } else {
      assert t[i] == c;
    }
  }

  /** A blank separates the words before it from those after it. */
  lemma {:induction false} WordsSplitAtBlank(space: Blank, a: string, c: char, b: string)
    requires space(c)
    ensures Words(space, a + [c] + b) == Words(space, a) + Words(space, b)
    decreases |a|
  {
    var t := a + [c] + b;
    if a == "" {
      assert t[1..] == b;
    } else if space(a[0]) {
      assert t[1..] == a[1..] + [c] + b;
      WordsSplitAtBlank(space, a[1..], c, b);
    } else {
      var n := WordEnd(space, a, 1);
      SameWordEnd(space, a, c, b, 1);
      assert t[..n] == a[..n] && t[n..] == a[n..] + [c] + b;
      WordsSplitAtBlank(space, a[n..], c, b);
    }
  }

  lemma {:induction false} OneWord(space: Blank, w: string)
    requires IsWord(space, w)
    ensures Words(space, w) == [w]
  {
    assert WordEnd(space, w, 1) == |w|;
    assert w[..|w|] == w && w[|w|..] == "";
  }

  /** Joining words with a blank and splitting gives the words back. */
  lemma {:induction false} WordsOfJoin(space: Blank, words: seq<string>)
    requires space(' ') && forall w | w in words :: IsWord(space, w)
    ensures Words(space, Join(" ", words)) == words
  {
    if words == [] {
    } else if |words| == 1 {
      OneWord(space, words[0]);
    } else {
      WordsOfJoin(space, words[1..]);
      OneWord(space, words[0]);
      WordsSplitAtBlank(space, words[0], ' ', Join(" ", words[1..]));
      assert words == [words[0]] + words[1..];
    }
  }

  lemma {:induction false} WordsAcrossParagraphs(space: Blank, a: string, b: string)
    requires space('\n')
    ensures Words(space, a + PARAGRAPH + b) == Words(space, a) + Words(space, b)
  {
    assert a + PARAGRAPH + b == a + ['\n'] + (['\n'] + b);
    WordsSplitAtBlank(space, a, '\n', ['\n'] + b);
    assert "" + ['\n'] + b == ['\n'] + b;
    WordsSplitAtBlank(space, "", '\n', b);
  }
}
