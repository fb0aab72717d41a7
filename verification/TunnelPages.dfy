/** Pages that the rewriter changes again in a second pass, one for each reason there is. */
module TunnelPages {
  import opened Wrappers
  import opened HtmlRewrite
  import opened HtmlIdempotence
  import opened HtmlQuiet
  import opened TunnelRewrite

  // ----- a rewritten attribute inside an unclosed one -----

  lemma {:induction false} FirstRewritePassesOver(cc: Classes, prefix: string, after: bool, s: string, t: string,
          j: nat)
    requires PassedOver(cc, after, s)
    requires FirstRewrite(cc, prefix, if s == "" then after else cc.word(s[|s| - 1]), t) == Some(j)
    ensures FirstRewrite(cc, prefix, after, s + t) == Some(|s| + j)
    decreases |s|
  {
    hide FirstRewrite, StartsName, PassedOver;
    if s == "" {
      assert s + t == t;
    } else {
      PassedOverRest(cc, after, s);
      FirstRewritePassesOver(cc, prefix, cc.word(s[0]), s[1..], t, j);
      assert s + t == [s[0]] + (s[1..] + t);
      NoNameThere(cc, after, [s[0]] + (s[1..] + t));
      FirstRewriteOneOn(cc, prefix, after, s[0], s[1..] + t);
    }
  }

  lemma {:induction false} FirstRewriteOneOn(cc: Classes, prefix: string, after: bool, c: char, t: string)
    requires MatchHere(cc, after, [c] + t).NoMatch? && FirstRewrite(cc, prefix, cc.word(c), t).Some?
    ensures FirstRewrite(cc, prefix, after, [c] + t) == Some(1 + FirstRewrite(cc, prefix, cc.word(c), t).value)
  {
    hide MatchHere, IsPrefixed;
    assert ([c] + t)[1..] == t;
  }

  const LOOSE := "src = \"/c\""
  const OPEN := "ref=\"/="

  lemma LooseMatches(cc: Classes)
    requires Proper(cc)
    ensures Matches(cc, LOOSE, Match(3, 4, 6, 9)) && NameLength(LOOSE) == 3
  {
    hide IsPathChar, NameLength;
    LettersAreWords(cc, 'c');
    assert HasName(LOOSE, NAMES[1]);
    NameLengthIs(LOOSE, 3);
  }

  lemma {:induction false} LooseIsRewritten(cc: Classes)
    requires Proper(cc)
    ensures FirstRewrite(cc, "/e", false, LOOSE) == Some(0) && NameLength(LOOSE) == 3
  {
    hide MatchHere, Matches, Width, NameLength, Proper;
    LooseMatches(cc);
    MatchesFound(cc, LOOSE, Match(3, 4, 6, 9));
    assert LOOSE[7..9] == "/c";
    assert "/c"[1] != "/e"[1];
  }

  lemma OpenOpens(cc: Classes)
    requires Proper(cc)
    ensures Opens(cc, "h" + (OPEN + LOOSE), Opening(4, 4, 5))
  {
  }

  lemma {:induction false} OpenRunsOn(cc: Classes)
    requires Proper(cc)
    ensures var t := "h" + (OPEN + LOOSE); OpeningHere(cc, false, t) == Opening(4, 4, 5) && PathEnd(cc, t, 7) == 11 && MatchHere(cc, false, t).NoMatch?
  {
    hide OpeningHere, IsPathChar, Proper, Opens, PathEnd;
    var t := "h" + (OPEN + LOOSE);
    OpenOpens(cc);
    OpensFound(cc, t, Opening(4, 4, 5));
    Punctuation(cc, '=');
    LettersAreWords(cc, 's');
    LettersAreWords(cc, 'r');
    LettersAreWords(cc, 'c');
    assert t[7] == '=' && t[8] == 's' && t[9] == 'r' && t[10] == 'c' && t[11] == ' ';
    BlankIsNoPath(cc);
    PathEndIs(cc, t, 7, 11);
  }

  lemma BlankIsNoPath(cc: Classes)
    requires Proper(cc)
    ensures !IsPathChar(cc, ' ')
  {
  }

  lemma OpenPassesOver(cc: Classes)
    requires Proper(cc)
    ensures PassedOver(cc, cc.word('h'), OPEN) && !cc.word('=')
  {
    hide IsNameLetter;
    LettersAreWords(cc, 'h');
    LettersAreWords(cc, 'e');
    Punctuation(cc, '=');
    assert !StartsName('r') && !StartsName('e') && !StartsName('=') && !StartsName('"') && !StartsName('/');
  }

  lemma LooseText()
    ensures var t := "h" + (OPEN + LOOSE); t[8..] == LOOSE && t[6..11] + "=" == "/=src="
  {
    var t := "h" + (OPEN + LOOSE);
    assert t[6] == '/' && t[7] == '=' && t[8] == 's' && t[9] == 'r' && t[10] == 'c';
  }

  lemma LooseIsNested(cc: Classes)
    requires Proper(cc)
    ensures var t := "h" + (OPEN + LOOSE); Nested(cc, "/e", false, t) && NewPath(cc, "/e", false, t) == "/=src="
  {
    hide OpeningHere, MatchHere, PathEnd, FirstRewrite, StartsName, Proper, NameLength, PassedOver;
    var t := "h" + (OPEN + LOOSE);
    LooseIsRewritten(cc);
    OpenRunsOn(cc);
    OpenPassesOver(cc);
    FirstRewritePassesOver(cc, "/e", cc.word('h'), OPEN, LOOSE, 0);
    FirstRewriteOneOn(cc, "/e", false, 'h', OPEN + LOOSE);
    LooseText();
  }

  lemma {:induction false} LooseIsUnsettled(cc: Classes)
    requires Proper(cc)
    ensures var u := Substitute(cc, "/e", false, "h" + (OPEN + LOOSE)); Substitute(cc, "/e", false, u) != u
  {
    hide MatchHere, OpeningHere, Substitute, Stable, NewPath, FirstRewrite, Nested, IsPathChar;
    var u := Substitute(cc, "/e", false, "h" + (OPEN + LOOSE));
    LooseIsNested(cc);
    assert !IsPrefixed("/=src=", "/e") by { assert "/=src="[1] != "/e"[1]; }
    NestedIsUnstable(cc, "/e", false, "h" + (OPEN + LOOSE));
    LettersAreWords(cc, 'e');
    Punctuation(cc, '/');
    if Substitute(cc, "/e", false, u) == u {
      FixedIsStable(cc, "/e", false, u);
    }
  }

  /** With a path that is not under the prefix around it: the second pass rewrites the outer attribute. */
  lemma {:induction false} LoosePage(py: Python)
    requires Faithful(py)
    ensures var page := "h" + (OPEN + LOOSE); Rewrite(py, Rewrite(py, page, "/e"), "/e") != Rewrite(py, page, "/e")
  {
    hide Rewrite, Substitute;
    LooseIsUnsettled(py.classes);
    PrefixIsPlain(py.classes);
    RewriteIsIdempotentExactly(py, "h" + (OPEN + LOOSE), "/e");
  }

  lemma PrefixIsPlain(cc: Classes)
    requires Proper(cc)
    ensures PlainPrefix(cc, "/e") && StripSlashes("/e") == "/e" && GoodPrefix(cc, "/e")
  {
    hide IsPathChar;
    LettersAreWords(cc, 'e');
    Punctuation(cc, '/');
  }

  // ----- the path of the inner one ends in a name and `=` -----

  const UNDER := "ref=\"/e/"
  const NAMED := "src = \"/a/href=\""
  const BEHIND := "/b\""

  /** All of it: the outer path is under the prefix. */
  function NamedPage(): string {
    "h" + (UNDER + (NAMED + BEHIND))
  }

  lemma NamedMatches(cc: Classes)
    requires Proper(cc)
    ensures Matches(cc, NAMED + BEHIND, Match(3, 4, 6, 15)) && NameLength(NAMED + BEHIND) == 3
    ensures PathOf(NAMED + BEHIND, Match(3, 4, 6, 15)) == "/a/href="
  {
    hide IsPathChar, NameLength;
    var t := NAMED + BEHIND;
    LettersAreWords(cc, 'a');
    LettersAreWords(cc, 'h');
    LettersAreWords(cc, 'r');
    LettersAreWords(cc, 'e');
    LettersAreWords(cc, 'f');
    Punctuation(cc, '/');
    Punctuation(cc, '=');
    assert t == "src = \"/a/href=\"/b\"";
    assert HasName(t, NAMES[1]);
    NameLengthIs(t, 3);
    assert t[7..15] == "/a/href=";
  }

  lemma {:induction false} NamedIsRewritten(cc: Classes)
    requires Proper(cc)
    ensures FirstRewrite(cc, "/e", false, NAMED + BEHIND) == Some(0) && MatchHere(cc, false, NAMED + BEHIND) == Match(3, 4, 6, 15)
  {
    hide MatchHere, Matches, Width, NameLength, Proper;
    NamedMatches(cc);
    MatchesFound(cc, NAMED + BEHIND, Match(3, 4, 6, 15));
    assert "/a/href="[1] != "/e"[1];
  }

  lemma NamedOpens(cc: Classes)
    requires Proper(cc)
    ensures Opens(cc, NamedPage(), Opening(4, 4, 5))
  {
    hide IsPathChar;
    assert NamedPage()[..10] == "href=\"/e/s";
  }

  lemma NamedText()
    ensures var t := NamedPage(); |t| == 28 && t[..13] == "href=\"/e/src " && t[9..] == NAMED + BEHIND && t[25..] == BEHIND && t[24] == '"'
    ensures NamedPage()[6..12] + "=" == "/e/src="
  {
    assert NamedPage() == "href=\"/e/src = \"/a/href=\"/b\"";
    assert NamedPage()[6..12] == "/e/src";
  }

  lemma {:induction false} NamedRunsOn(cc: Classes)
    requires Proper(cc)
    ensures var t := NamedPage(); OpeningHere(cc, false, t) == Opening(4, 4, 5) && PathEnd(cc, t, 7) == 12 && MatchHere(cc, false, t).NoMatch?
  {
    hide OpeningHere, IsPathChar, Proper, Opens, PathEnd;
    var t := NamedPage();
    NamedText();
    NamedOpens(cc);
    OpensFound(cc, t, Opening(4, 4, 5));
    Punctuation(cc, '/');
    LettersAreWords(cc, 'e');
    LettersAreWords(cc, 's');
    LettersAreWords(cc, 'r');
    LettersAreWords(cc, 'c');
    assert forall k | 0 <= k < 13 :: t[k] == t[..13][k];
    assert t[7] == 'e' && t[8] == '/' && t[9] == 's' && t[10] == 'r' && t[11] == 'c' && t[12] == ' ';
    BlankIsNoPath(cc);
    PathEndIs(cc, t, 7, 12);
  }

  lemma UnderPassesOver(cc: Classes)
    requires Proper(cc)
    ensures PassedOver(cc, cc.word('h'), UNDER) && !cc.word('/')
  {
    hide IsNameLetter;
    LettersAreWords(cc, 'h');
    LettersAreWords(cc, 'e');
    Punctuation(cc, '/');
    assert !StartsName('r') && !StartsName('e') && !StartsName('=') && !StartsName('"') && !StartsName('/');
  }

  lemma {:induction false} NamedFirst(cc: Classes)
    requires Proper(cc)
    ensures FirstRewrite(cc, "/e", false, NamedPage()) == Some(9)
  {
    hide MatchHere, FirstRewrite, StartsName, Proper, PassedOver;
    NamedIsRewritten(cc);
    NamedRunsOn(cc);
    UnderPassesOver(cc);
    FirstRewritePassesOver(cc, "/e", cc.word('h'), UNDER, NAMED + BEHIND, 0);
    FirstRewriteOneOn(cc, "/e", false, 'h', UNDER + (NAMED + BEHIND));
  }

  /** The first pass closes the outer attribute under the prefix, and leaves `href=` and a quote behind it. */
  lemma NamedIsNested(cc: Classes)
    requires Proper(cc)
    ensures var t := NamedPage();
            && Nested(cc, "/e", false, t) && NewPath(cc, "/e", false, t) == "/e/src="
            && Behind(cc, "/e", false, t) == 25 && RewriteTail(cc, "/e", false, t) == "/e/a/href=\""
  {
    hide OpeningHere, MatchHere, PathEnd, FirstRewrite, StartsName, Proper, PassedOver;
    var t := NamedPage();
    NamedText();
    NamedMatches(cc);
    NamedIsRewritten(cc);
    NamedRunsOn(cc);
    NamedFirst(cc);
    UnderPassesOver(cc);
    assert t[8] == t[..13][8] == '/';
    assert RewriteMatch(cc, "/e", false, t) == Match(3, 4, 6, 15);
    assert "/e" + "/a/href=" + ['"'] == "/e/a/href=\"";
  }

  lemma TailOpens(cc: Classes)
    requires Proper(cc)
    ensures OpensAtEnd(cc, "/e/a/href=\"")
  {
    var tail := "/e/a/href=\"";
    Punctuation(cc, '/');
    assert tail[5..] == "href=\"" && HasName(tail[5..], NAMES[0]);
    assert NameEndsAt(cc, tail, 5);
  }

  /** What stands behind closes the attribute with a path that is not under the prefix. */
  lemma {:induction false} BehindCloses(cc: Classes)
    requires Proper(cc)
    ensures Closing(cc, "/e", false, BEHIND) == ClosedAt("/b", '"', 3, "")
  {
    hide MatchHere, IsPathChar;
    Punctuation(cc, '/');
    LettersAreWords(cc, 'b');
    assert !StartsName('/') && !StartsName('b') && !StartsName('"');
    NoNameThere(cc, false, BEHIND);
    assert BEHIND[1..] == "b\"" && "b\""[1..] == "\"";
    NoNameThere(cc, cc.word('/'), "b\"");
    NoNameThere(cc, cc.word('b'), "\"");
    assert Closing(cc, "/e", cc.word('b'), "\"") == ClosedAt("", '"', 1, "");
    assert Closing(cc, "/e", cc.word('/'), "b\"") == ClosedAt("b", '"', 2, "");
  }

  /** So the second pass rewrites there, in step with nothing the first pass saw. */
  lemma {:induction false} NamedPageChanges(py: Python)
    requires Faithful(py)
    ensures Rewrite(py, Rewrite(py, NamedPage(), "/e"), "/e") != Rewrite(py, NamedPage(), "/e")
  {
    hide Rewrite, Nested, NewPath, Behind, RewriteTail, OpensAtEnd, Closing, LateTag;
    var cc := py.classes;
    NamedIsNested(cc);
    NamedText();
    TailOpens(cc);
    BehindCloses(cc);
    PrefixIsPlain(cc);
    assert !IsPrefixed("/b", "/e") by { assert "/b"[1] != "/e"[1]; }
    assert !QuietInside(cc, "/e", BEHIND);
    assert !Quiet(cc, "/e", false, NamedPage());
    QuietPagesAreIdempotent(py, NamedPage(), "/e");
  }

  // ----- a head that comes late -----

  function Blanks(n: nat): string {
    if n == 0 then "" else Blanks(n - 1) + " "
  }

  lemma {:induction false} BlanksAre(n: nat)
    ensures |Blanks(n)| == n && forall k | 0 <= k < n :: Blanks(n)[k] == ' '
  {
    if n > 0 {
      BlanksAre(n - 1);
    }
  }

  lemma {:induction false} LowerLengthAtLeast(s: string)
    ensures LowerLength(s) >= |s|
    decreases |s|
  {
    if s != "" {
      LowerLengthAtLeast(s[..|s| - 1]);
    }
  }

  lemma {:induction false} HeadIsLate(cc: Classes, t: string, i: nat, n: nat)
    requires Proper(cc) && i <= n && |t| == n + 6 && (forall k | 0 <= k < n :: t[k] == ' ') && t[n..] == "<head>"
    ensures HeadEnd(cc, t, i) == Some(n + 6)
    decreases n - i
  {
    if i < n {
      HeadIsLate(cc, t, i + 1, n);
    } else {
      assert t[n] == "<head>"[0] && t[n + 5] == "<head>"[5];
      assert t[n + 1..] == "<head>"[1..];
      Punctuation(cc, '>');
      assert HasName(t[n + 1..], "head");
    }
  }

  lemma {:induction false} NoQuotesIsStable(cc: Classes, p: string, after: bool, t: string)
    requires forall k | 0 <= k < |t| :: !IsQuote(t[k])
    ensures Stable(cc, p, after, t)
    decreases |t|
  {
    hide MatchHere;
    if t != "" {
      FoundMatches(cc, after, t);
      NoQuotesIsStable(cc, p, cc.word(t[0]), t[1..]);
    }
  }

  function LatePage(): string {
    Blanks(8000) + "<head>"
  }

  lemma NoBaseWithoutB(t: string)
    requires forall k | 0 <= k < |t| :: LowerAscii(t[k]) != 'b'
    ensures !HasBase(t)
  {
    if HasBase(t) {
      var i := BaseOf(t);
      BaseIsNoBracket(t, i);
    }
  }

  /** 8000 blanks and a head: the base tag goes in where the next pass does not look. */
  lemma LatePageGrows(py: Python)
    requires Faithful(py)
    ensures Rewrite(py, Rewrite(py, LatePage(), "/e"), "/e") != Rewrite(py, LatePage(), "/e")
  {
    hide Rewrite, Substitute, HeadEnd, HasBase, LowerLength, Stable, Calm, Blanks, IsPathChar;
    var cc, t := py.classes, LatePage();
    BlanksAre(8000);
    assert t[8000..] == "<head>";
    forall k | 0 <= k < |t|
      ensures !IsQuote(t[k]) && LowerAscii(t[k]) != 'b'
    {
      if k >= 8000 { assert t[k] == "<head>"[k - 8000]; }
    }
    NoQuotesIsStable(cc, "/e", false, t);
    StableIsFixed(cc, "/e", false, t);
    NoBaseWithoutB(t);
    HeadIsLate(cc, t, 0, 8000);
    assert t[..8006] == t;
    LowerLengthAtLeast(t);
    PrefixIsPlain(cc);
    RewriteIsIdempotentExactly(py, t, "/e");
  }
}
