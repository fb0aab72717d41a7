/** The rewriter's output in plain words: which attributes of a page are rewritten and to what, and which tag goes
    in where. */
module TunnelShape {
  import opened Wrappers
  import opened HtmlRewrite
  import opened TunnelRewrite

  // ----- which text is an attribute -----

  /** `c` is the letter `l` in either case, or one of the characters Python folds to s or i. */
  predicate Letter(c: char, l: char) {
    || c == l || (l as int - c as int == 32 && 'A' <= c <= 'Z')
    || (l == 's' && c == 'ſ') || (l == 'i' && (c == 'İ' || c == 'ı'))
  }

  predicate Reads(w: string, name: string) {
    |w| == |name| && forall k | 0 <= k < |w| :: Letter(w[k], name[k])
  }

  predicate IsName(w: string) {
    Reads(w, "href") || Reads(w, "src") || Reads(w, "action") || Reads(w, "formaction")
  }

  predicate AllBlank(cc: Classes, s: string) {
    forall k | 0 <= k < |s| :: cc.space(s[k])
  }

  /** One leading slash, no quotes, angle brackets or blanks. */
  predicate IsPath(cc: Classes, path: string) {
    && path != "" && path[0] == '/' && (|path| > 1 ==> path[1] != '/')
    && forall k | 0 <= k < |path| :: path[k] != '"' && path[k] != '\'' && path[k] != '<' && path[k] != '>' && !cc.space(path[k])
  }

  predicate Quote(c: char) {
    c == '"' || c == '\''
  }

  /** An attribute in front of `rest`. */
  datatype Attribute = Attribute(name: string, before: string, behind: string, open: char, path: string, close: char)

  function Text(a: Attribute): string {
    a.name + a.before + "=" + a.behind + [a.open] + a.path + [a.close]
  }

  predicate Fine(cc: Classes, a: Attribute) {
    IsName(a.name) && AllBlank(cc, a.before) && AllBlank(cc, a.behind) && Quote(a.open) && Quote(a.close) && IsPath(cc, a.path)
  }

  predicate Under(path: string, prefix: string) {
    path == prefix || (|path| > |prefix| && path[..|prefix|] == prefix && path[|prefix|] == '/')
  }

  function Place(a: Attribute): Match {
    var equals := |a.name| + |a.before|;
    var quote := equals + 1 + |a.behind|;
    Match(|a.name|, equals, quote, quote + 1 + |a.path|)
  }

  lemma LettersFold(c: char, l: char)
    requires 'a' <= l <= 'z'
    ensures Letter(c, l) <==> FoldsTo(c, l)
  {
  }

  lemma NamesFold(t: string, n: nat)
    requires n <= |t|
    ensures IsName(t[..n]) <==> NameAt(t, n)
  {
    forall name, k | name in ["href", "src", "action", "formaction"] && 0 <= k < |name| && k < |t|
      ensures Letter(t[k], name[k]) <==> FoldsTo(t[k], name[k])
    {
      LettersFold(t[k], name[k]);
    }
    assert Reads(t[..n], "href") <==> n == 4 && HasName(t, "href");
    assert Reads(t[..n], "src") <==> n == 3 && HasName(t, "src");
    assert Reads(t[..n], "action") <==> n == 6 && HasName(t, "action");
    assert Reads(t[..n], "formaction") <==> n == 10 && HasName(t, "formaction");
  }

  lemma TextParts(a: Attribute, rest: string)
    ensures var t, m := Text(a) + rest, Place(a);
            && m.close + 1 == |Text(a)| && t[m.close + 1..] == rest && t[..m.close + 1] == Text(a)
            && t[..m.name] == a.name && t[m.name..m.equals] == a.before && t[m.equals] == '='
            && t[m.equals + 1..m.quote] == a.behind && t[m.quote] == a.open && t[m.quote + 1..m.close] == a.path && t[m.close] == a.close
  {
    var m := Place(a);
    assert Text(a)[m.quote..] == [a.open] + a.path + [a.close];
  }

  lemma FineMatches(cc: Classes, a: Attribute, rest: string)
    requires Proper(cc) && Fine(cc, a)
    ensures Matches(cc, Text(a) + rest, Place(a))
  {
    hide IsName, NameAt, Text, Proper;
    var t, m := Text(a) + rest, Place(a);
    TextParts(a, rest);
    NamesFold(t, m.name);
    assert forall k | m.name <= k < m.equals :: t[k] == a.before[k - m.name];
    assert forall k | m.equals < k < m.quote :: t[k] == a.behind[k - m.equals - 1];
    assert forall k | m.quote < k < m.close :: t[k] == a.path[k - m.quote - 1];
  }

  lemma PathIsPath(cc: Classes, t: string, m: Match)
    requires Proper(cc) && Matches(cc, t, m)
    ensures IsPath(cc, t[m.quote + 1..m.close])
  {
    hide NameAt, Proper;
    var path := t[m.quote + 1..m.close];
    Punctuation(cc, '/');
    assert forall k | 0 <= k < |path| :: path[k] == t[m.quote + 1 + k];
    forall k | 0 <= k < |path|
      ensures IsPathChar(cc, path[k])
    {
      assert path[k] == t[m.quote + 1 + k];
    }
  }

  lemma BlanksAreBlank(cc: Classes, t: string, m: Match)
    requires Matches(cc, t, m)
    ensures AllBlank(cc, t[m.name..m.equals]) && AllBlank(cc, t[m.equals + 1..m.quote])
  {
    hide NameAt, IsPathChar;
  }

  /** A match is an attribute in the plain sense. */
  lemma MatchIsFine(cc: Classes, t: string, m: Match) returns (a: Attribute)
    requires Proper(cc) && Matches(cc, t, m)
    ensures Fine(cc, a) && Place(a) == m && t == Text(a) + t[m.close + 1..]
  {
    hide IsName, NameAt, IsPath, AllBlank, IsPathChar, Proper;
    a := Attribute(t[..m.name], t[m.name..m.equals], t[m.equals + 1..m.quote], t[m.quote], t[m.quote + 1..m.close], t[m.close]);
    NamesFold(t, m.name);
    PathIsPath(cc, t, m);
    BlanksAreBlank(cc, t, m);
    assert [t[m.equals]] == "=";
    Pieces(t, m.name, m.equals, m.quote, m.close);
  }

  lemma Pieces(t: string, n: nat, e: nat, q: nat, c: nat)
    requires n <= e < q < c < |t|
    ensures t == t[..n] + t[n..e] + [t[e]] + t[e + 1..q] + [t[q]] + t[q + 1..c] + [t[c]] + t[c + 1..]
  {
    var x := t[..n] + t[n..e] + [t[e]];
    assert x == t[..e + 1];
    var y := x + t[e + 1..q] + [t[q]];
    assert y == t[..q + 1];
    var z := y + t[q + 1..c] + [t[c]];
    assert z == t[..c + 1];
    assert z + t[c + 1..] == t;
  }

  lemma UnderIsPrefixed(path: string, prefix: string)
    ensures Under(path, prefix) <==> IsPrefixed(path, prefix)
  {
    var p := prefix + "/";
    if |path| > |prefix| {
      assert path[..|p|] == path[..|prefix|] + [path[|prefix|]];
    }
  }

  /** An attribute at a word boundary comes out with the prefix in front of its path and without the blanks around its
      `=`, or as it is if it is under the prefix already; what follows it is rewritten by itself. */
  lemma {:induction false} AttributeIsRewritten(cc: Classes, prefix: string, a: Attribute, rest: string)
    requires Proper(cc) && Fine(cc, a)
    ensures Substitute(cc, prefix, false, Text(a) + rest)
         == (if Under(a.path, prefix) then Text(a) else a.name + "=" + [a.open] + prefix + a.path + [a.close])
            + Substitute(cc, prefix, false, rest)
  {
    hide MatchHere, Fine, Matches, IsPrefixed, Under, Text, Replacement, Substitute;
    var t, m := Text(a) + rest, Place(a);
    FineMatches(cc, a, rest);
    MatchesFound(cc, t, m);
    TextParts(a, rest);
    CloseIsNoWord(cc, a);
    SubstituteUnfolds(cc, prefix, false, t);
    AttributeBecomes(prefix, a, t, m);
  }

  lemma AttributeBecomes(prefix: string, a: Attribute, t: string, m: Match)
    requires m.Match? && m.name <= m.quote < m.close < |t| && t[..m.close + 1] == Text(a)
    requires t[..m.name] == a.name && t[m.quote] == a.open && t[m.quote + 1..m.close] == a.path && t[m.close] == a.close
    ensures Replacement(prefix, t, m)
         == if Under(a.path, prefix) then Text(a) else a.name + "=" + [a.open] + prefix + a.path + [a.close]
  {
    hide IsPrefixed, Under, Text;
    UnderIsPrefixed(a.path, prefix);
    assert a.name + "=" + [a.open] == a.name + ['=', a.open];
  }

  lemma CloseIsNoWord(cc: Classes, a: Attribute)
    requires Proper(cc) && Fine(cc, a)
    ensures !cc.word(a.close)
  {
    Punctuation(cc, a.close);
  }

  ghost predicate StartsAttribute(cc: Classes, t: string) {
    exists a, rest :: Fine(cc, a) && t == Text(a) + rest
  }

  /** Any other character is copied. */
  lemma {:induction false} OthersAreCopied(cc: Classes, prefix: string, after: bool, t: string)
    requires Proper(cc) && t != "" && (after || !StartsAttribute(cc, t))
    ensures Substitute(cc, prefix, after, t) == [t[0]] + Substitute(cc, prefix, cc.word(t[0]), t[1..])
  {
    hide MatchHere, Fine, Matches, Text, Substitute, Proper, Replacement;
    SubstituteUnfolds(cc, prefix, after, t);
    FoundMatches(cc, after, t);
    var m := MatchHere(cc, after, t);
    if m.Match? {
      var a := MatchIsFine(cc, t, m);
    }
  }

  // ----- the base tag -----

  /** A head tag from `i` to just before `h`. */
  predicate IsHeadTag(cc: Classes, t: string, i: nat, h: nat) {
    && i + 6 <= h <= |t| && t[i] == '<' && Reads(t[i + 1..i + 5], "head") && !cc.word(t[i + 5])
    && t[h - 1] == '>' && forall k | i + 5 <= k < h - 1 :: t[k] != '>'
  }

  lemma HeadAtIs(cc: Classes, t: string, i: nat)
    ensures HeadAt(cc, t, i) <==> i + 5 < |t| && t[i] == '<' && Reads(t[i + 1..i + 5], "head") && !cc.word(t[i + 5])
  {
    if i + 5 < |t| {
      var u := t[i + 1..];
      forall k | 0 <= k < 4
        ensures Letter(u[k], "head"[k]) <==> FoldsTo(u[k], "head"[k])
      {
        LettersFold(u[k], "head"[k]);
      }
      assert t[i + 1..i + 5] == u[..4];
      assert forall k | 0 <= k < 4 :: t[i + 1..i + 5][k] == u[k];
    }
  }

  lemma {:induction false} HeadTagEnds(cc: Classes, t: string, i: nat, h: nat)
    ensures IsHeadTag(cc, t, i, h) <==> HeadAt(cc, t, i) && TagEnd(t, i + 5) < |t| && h == TagEnd(t, i + 5) + 1
  {
    hide Reads, HasName;
    HeadAtIs(cc, t, i);
    if HeadAt(cc, t, i) {
      var e := TagEnd(t, i + 5);
      if IsHeadTag(cc, t, i, h) {
        assert t[h - 1] == '>' && (e < |t| ==> t[e] == '>');
      }
    }
  }

  /** The first head tag from `i` on. */
  ghost predicate FirstHeadTag(cc: Classes, t: string, i: nat, j: nat, h: nat) {
    i <= j && IsHeadTag(cc, t, j, h) && forall k, g | i <= k < j :: !IsHeadTag(cc, t, k, g)
  }

  /** The tag goes in behind it. */
  lemma {:induction false} HeadEndIsFirst(cc: Classes, t: string, i: nat, h: nat)
    requires i <= |t|
    ensures HeadEnd(cc, t, i) == Some(h) <==> exists j: nat :: FirstHeadTag(cc, t, i, j, h)
    decreases |t| - i
  {
    hide Reads, HasName, IsHeadTag;
    if i == |t| {
      forall j: nat | j >= |t|
        ensures !IsHeadTag(cc, t, j, h)
      {
        HeadTagEnds(cc, t, j, h);
      }
    } else {
      HeadEndIsFirst(cc, t, i + 1, h);
      forall g: nat
        ensures IsHeadTag(cc, t, i, g) <==> HeadAt(cc, t, i) && TagEnd(t, i + 5) < |t| && g == TagEnd(t, i + 5) + 1
      {
        HeadTagEnds(cc, t, i, g);
      }
      if HeadAt(cc, t, i) && TagEnd(t, i + 5) < |t| {
        HeadTagHere(cc, t, i, TagEnd(t, i + 5) + 1, h);
      } else {
        NoHeadTagHere(cc, t, i, i + 1, h);
      }
    }
  }

  lemma HeadTagHere(cc: Classes, t: string, i: nat, g: nat, h: nat)
    requires IsHeadTag(cc, t, i, g) && forall k: nat | IsHeadTag(cc, t, i, k) :: k == g
    ensures (exists j: nat :: FirstHeadTag(cc, t, i, j, h)) <==> h == g
  {
    hide IsHeadTag;
    if h == g {
      assert FirstHeadTag(cc, t, i, i, h);
    }
    if j: nat :| FirstHeadTag(cc, t, i, j, h) {
      assert j == i;
    }
  }

  lemma NoHeadTagHere(cc: Classes, t: string, i: nat, next: nat, h: nat)
    requires next == i + 1 && forall g: nat :: !IsHeadTag(cc, t, i, g)
    ensures (exists j: nat :: FirstHeadTag(cc, t, i, j, h)) <==> exists j: nat :: FirstHeadTag(cc, t, next, j, h)
  {
    hide IsHeadTag;
    if j: nat :| FirstHeadTag(cc, t, i, j, h) {
      assert FirstHeadTag(cc, t, next, j, h);
    }
    if j: nat :| FirstHeadTag(cc, t, next, j, h) {
      assert FirstHeadTag(cc, t, i, j, h);
    }
  }

  /** The page has a base tag where the rewriter looks. */
  predicate BaseInWindow(t: string) {
    exists i | 0 <= i < |t| :: BaseTagAt(t, i) && LowerLength(t[..i]) <= 7994
  }

  predicate BaseTagAt(t: string, i: nat) {
    && i + 6 <= |t| && t[i] == '<' && t[i + 1] in "bB" && t[i + 2] in "aA" && t[i + 3] in "sS" && t[i + 4] in "eE" && t[i + 5] == ' '
  }

  lemma LowerIs(c: char, l: char)
    requires 'a' <= l <= 'z'
    ensures LowerAscii(c) == l <==> c == l || c as int + 32 == l as int
  {
  }

  lemma BaseTagAtIs(t: string, i: nat)
    ensures BaseAt(t, i) <==> BaseTagAt(t, i)
  {
    hide LowerAscii;
    if i + 6 <= |t| {
      LowerIs(t[i + 1], 'b');
      LowerIs(t[i + 2], 'a');
      LowerIs(t[i + 3], 's');
      LowerIs(t[i + 4], 'e');
      LowerIsNot(t[i], '<');
      LowerIsNot(t[i + 5], ' ');
      SixLetters(t[i..i + 6]);
      var w := t[i..i + 6];
      assert forall k | 0 <= k < 6 :: w[k] == t[i + k];
    }
  }

  lemma SixLetters(s: string)
    requires |s| == 6
    ensures (forall k | 0 <= k < 6 :: LowerAscii(s[k]) == "<base "[k])
            <==> LowerAscii(s[0]) == '<' && LowerAscii(s[1]) == 'b' && LowerAscii(s[2]) == 'a'
                 && LowerAscii(s[3]) == 's' && LowerAscii(s[4]) == 'e' && LowerAscii(s[5]) == ' '
  {
    hide LowerAscii;
  }

  lemma LowerIsNot(c: char, l: char)
    requires l == '<' || l == ' '
    ensures LowerAscii(c) == l <==> c == l
  {
  }

  lemma HasBaseIs(t: string)
    ensures HasBase(t) <==> BaseInWindow(t)
  {
    hide BaseAt, BaseTagAt, LowerLength;
    forall i: nat
      ensures BaseAt(t, i) <==> BaseTagAt(t, i)
    {
      BaseTagAtIs(t, i);
    }
  }

  /** Lower-casing adds one character for each capital i with a dot. */
  lemma {:induction false} LowerLengthIs(s: string)
    ensures LowerLength(s) == |s| + |set i | 0 <= i < |s| && s[i] == 'İ'|
  {
    if s != "" {
      var n := |s| - 1;
      LowerLengthIs(s[..n]);
      var before, all := set i | 0 <= i < n && s[..n][i] == 'İ', set i | 0 <= i < |s| && s[i] == 'İ';
      assert all == before + if s[n] == 'İ' then {n} else {};
    }
  }

  /** The prefix without its trailing slashes. */
  lemma {:induction false} StrippedExactly(prefix: string)
    ensures var p := StripSlashes(prefix);
            && |p| <= |prefix| && p == prefix[..|p|] && (p != "" ==> p[|p| - 1] != '/')
            && forall k | |p| <= k < |prefix| :: prefix[k] == '/'
  {
    if prefix != "" && prefix[|prefix| - 1] == '/' {
      StrippedExactly(prefix[..|prefix| - 1]);
    }
  }

  /** What the rewriter returns: for a prefix that starts with no slash the page; otherwise the page with its attributes
      rewritten and, unless there is a base tag in the window or no head tag, a base tag for the prefix behind the
      first head tag; the page again if the tag cannot be expanded. */
  lemma {:induction false} RewriteExactly(py: Python, html: string, prefix: string)
    ensures var p := StripSlashes(prefix);
            var y := Substitute(py.classes, p, false, html);
            var tag := py.expand("<base href=\"" + p + "/\">");
            Rewrite(py, html, prefix)
            == if prefix == "" || prefix[0] != '/' then html
               else if BaseInWindow(y) then y
               else if tag.None? then html
               else match HeadEnd(py.classes, y, 0) case None => y case Some(h) => y[..h] + tag.value + y[h..]
  {
    hide Substitute, HasBase, HeadEnd, StripSlashes, BaseInWindow;
    HasBaseIs(Substitute(py.classes, StripSlashes(prefix), false, html));
  }
}
