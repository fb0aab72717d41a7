/** Serving a page under a tunnel prefix: attributes are rewritten and a base tag is put into the head. */
module TunnelRewrite {
  import opened Wrappers
  import opened HtmlRewrite
  import opened HtmlIdempotence
  import opened HtmlQuiet
  import opened HtmlRestore

  /** The parts of Python's `re` and `str` the rewriter leans on; `expand` is the expansion of a
      replacement template, `None` where the template is refused. */
  datatype Python = Python(classes: Classes, expand: string -> Option<string>)

  ghost predicate Faithful(py: Python) {
    Proper(py.classes) && forall s | '\\' !in s :: py.expand(s) == Some(s)
  }

  /** `prefix.rstrip("/")` */
  function StripSlashes(prefix: string): string {
    if prefix != "" && prefix[|prefix| - 1] == '/' then StripSlashes(prefix[..|prefix| - 1]) else prefix
  }

  function BaseTag(p: string): string {
    "<base href=\"" + p + "/\">"
  }

  // ----- is there a base tag already -----

  function LowerAscii(c: char): char {
    if 'A' <= c <= 'Z' then ((c as int) - ('A' as int) + ('a' as int)) as char else c
  }

  /** The length of `s.lower()`: one character alone becomes two. */
  function LowerLength(s: string): nat {
    if s == "" then 0 else LowerLength(s[..|s| - 1]) + if s[|s| - 1] == '\U{0130}' then 2 else 1
  }

  predicate BaseAt(s: string, i: nat) {
    i + 6 <= |s| && forall k | 0 <= k < 6 :: LowerAscii(s[i + k]) == "<base "[k]
  }

  const BASE_WINDOW := 8000

  /** `"<base " in s.lower()[:8000]` */
  predicate HasBase(s: string) {
    exists i | 0 <= i < |s| :: BaseAt(s, i) && LowerLength(s[..i]) + 6 <= BASE_WINDOW
  }

  // ----- the end of the first head tag -----

  predicate HeadAt(cc: Classes, t: string, i: nat) {
    i + 5 < |t| && t[i] == '<' && HasName(t[i + 1..], "head") && !cc.word(t[i + 5])
  }

  /** The first `>` from `i` on. */
  function TagEnd(t: string, i: nat): (j: nat)
    requires i <= |t|
    ensures i <= j <= |t| && (forall k | i <= k < j :: t[k] != '>') && (j < |t| ==> t[j] == '>')
    decreases |t| - i
  {
    if i < |t| && t[i] != '>' then TagEnd(t, i + 1) else i
  }

  /** Just after the first `<head ...>`, looking from `i` on. */
  function HeadEnd(cc: Classes, t: string, i: nat): (h: Option<nat>)
    requires i <= |t|
    ensures h.Some? ==> i + 6 <= h.value <= |t| && t[h.value - 1] == '>'
    decreases |t| - i
  {
    if i == |t| then None
    else if HeadAt(cc, t, i) && TagEnd(t, i + 5) < |t| then Some(TagEnd(t, i + 5) + 1)
    else HeadEnd(cc, t, i + 1)
  }

  function Inject(cc: Classes, t: string, tag: string): string {
    match HeadEnd(cc, t, 0)
    case None => t
    case Some(h) => t[..h] + tag + t[h..]
  }

  /** `_rewrite_html_for_tunnel`: any failure leaves the page as it was. */
  function Rewrite(py: Python, html: string, prefix: string): string {
    if prefix == "" || prefix[0] != '/' then html
    else
      var p := StripSlashes(prefix);
      var y := Substitute(py.classes, p, false, html);
      if HasBase(y) then y
      else
        match py.expand(BaseTag(p))
        case None => html
        case Some(tag) => Inject(py.classes, y, tag)
  }

  // ----- which prefixes and pages -----

  /** One leading slash; no quotes, blanks, angle brackets or backslashes. */
  predicate PlainPrefix(cc: Classes, prefix: string) {
    && prefix != "" && prefix[0] == '/' && (|prefix| > 1 ==> prefix[1] != '/')
    && forall k | 0 <= k < |prefix| :: IsPathChar(cc, prefix[k]) && prefix[k] != '\\'
  }

  lemma {:induction false} StripSlashesIsGood(cc: Classes, prefix: string)
    requires Proper(cc) && PlainPrefix(cc, prefix)
    ensures GoodPrefix(cc, StripSlashes(prefix)) && '\\' !in StripSlashes(prefix)
  {
    hide IsPathChar;
    if prefix[|prefix| - 1] == '/' {
      if |prefix| > 1 {
        StripSlashesIsGood(cc, prefix[..|prefix| - 1]);
      }
    }
  }

  // ----- a page cut behind a `>` -----

  /** A match holds no `>`. */
  lemma NoBracketInMatch(cc: Classes, after: bool, t: string, k: nat)
    requires Proper(cc) && MatchHere(cc, after, t).Match? && k <= MatchHere(cc, after, t).close
    ensures t[k] != '>'
  {
    hide MatchHere, NameAt, FoldsTo, IsNameLetter;
    var m := MatchHere(cc, after, t);
    FoundMatches(cc, after, t);
    NameChars(t, m.name);
    Punctuation(cc, '>');
    BracketIsNoLetter(cc);
  }

  lemma BracketIsNoLetter(cc: Classes)
    requires Proper(cc)
    ensures !IsNameLetter('>')
  {
  }

  lemma WidthBeforeBracket(cc: Classes, prefix: string, after: bool, a: string, b: string)
    requires Proper(cc) && a != "" && a[|a| - 1] == '>'
    ensures Width(cc, after, a + b) == Width(cc, after, a)
    ensures StableHere(cc, prefix, after, a + b) <==> StableHere(cc, prefix, after, a)
    ensures Piece(cc, prefix, after, a + b) == Piece(cc, prefix, after, a)
  {
    hide MatchHere, IsPrefixed, Proper;
    var n := |a|;
    assert (a + b)[..n] == a[..n];
    if MatchHere(cc, after, a + b).Match? {
      if MatchHere(cc, after, a + b).close >= n - 1 {
        NoBracketInMatch(cc, after, a + b, n - 1);
      }
      MatchDependsOnPrefix(cc, after, a + b, a, n);
      SameReplacement(prefix, a, b, MatchHere(cc, after, a));
    } else if MatchHere(cc, after, a).Match? {
      MatchDependsOnPrefix(cc, after, a, a + b, n);
    }
  }

  lemma SameReplacement(prefix: string, a: string, b: string, m: Match)
    requires m.Match? && m.name <= m.quote < m.close < |a|
    ensures PathOf(a + b, m) == PathOf(a, m) && Replacement(prefix, a + b, m) == Replacement(prefix, a, m)
  {
    hide IsPrefixed;
    assert (a + b)[..m.name] == a[..m.name] && (a + b)[..m.close + 1] == a[..m.close + 1];
    assert PathOf(a + b, m) == PathOf(a, m);
  }

  lemma {:induction false} StableSplits(cc: Classes, prefix: string, after: bool, a: string, b: string)
    requires Proper(cc) && a != "" && a[|a| - 1] == '>'
    ensures Stable(cc, prefix, after, a + b) <==> Stable(cc, prefix, after, a) && Stable(cc, prefix, false, b)
    decreases |a|
  {
    hide Width, Stable, StableHere, Proper, Piece;
    var n := Width(cc, after, a);
    WidthBeforeBracket(cc, prefix, after, a, b);
    StableUnfolds(cc, prefix, after, a);
    StableUnfolds(cc, prefix, after, a + b);
    CutBehind(a, b, n);
    if n == |a| {
      BracketEndsWord(cc);
      EmptyIsStable(cc, prefix, cc.word(a[n - 1]));
    } else {
      StableSplits(cc, prefix, cc.word(a[n - 1]), a[n..], b);
    }
  }

  /** Rewriting, too, can be done part by part. */
  lemma {:induction false} SubstituteSplits(cc: Classes, prefix: string, after: bool, a: string, b: string)
    requires Proper(cc) && a != "" && a[|a| - 1] == '>'
    ensures Substitute(cc, prefix, after, a + b) == Substitute(cc, prefix, after, a) + Substitute(cc, prefix, false, b)
    decreases |a|
  {
    hide Width, Substitute, Piece, StableHere, Proper;
    var n := Width(cc, after, a);
    WidthBeforeBracket(cc, prefix, after, a, b);
    SubstituteUnfolds(cc, prefix, after, a);
    SubstituteUnfolds(cc, prefix, after, a + b);
    CutBehind(a, b, n);
    if n == |a| {
      BracketEndsWord(cc);
      SubstituteNothing(cc, prefix, cc.word(a[n - 1]));
      Associates(Piece(cc, prefix, after, a), "", Substitute(cc, prefix, false, b));
    } else {
      SubstituteSplits(cc, prefix, cc.word(a[n - 1]), a[n..], b);
      Associates(Piece(cc, prefix, after, a), Substitute(cc, prefix, cc.word(a[n - 1]), a[n..]), Substitute(cc, prefix, false, b));
    }
  }

  lemma CutBehind(a: string, b: string, n: nat)
    requires 0 < n <= |a|
    ensures (a + b)[n..] == a[n..] + b && (a + b)[n - 1] == a[n - 1] && (n == |a| ==> (a + b)[n..] == b && a[n..] == "")
    ensures n < |a| ==> a[n..] != "" && a[n..][|a[n..]| - 1] == a[|a| - 1]
  {
  }

  lemma Associates(x: string, y: string, z: string)
    ensures x + (y + z) == (x + y) + z && "" + z == z
  {
  }

  lemma {:induction false} SubstituteUnfolds(cc: Classes, prefix: string, after: bool, t: string)
    requires t != ""
    ensures var n := Width(cc, after, t);
            Substitute(cc, prefix, after, t) == Piece(cc, prefix, after, t) + Substitute(cc, prefix, cc.word(t[n - 1]), t[n..])
  {
    hide Width, Piece;
  }

  lemma {:induction false} SubstituteNothing(cc: Classes, prefix: string, after: bool)
    ensures Substitute(cc, prefix, after, "") == ""
  {
  }

  /** What is not stable is not even the same at the start, whatever follows. */
  lemma {:induction false} SubstituteDiffers(cc: Classes, prefix: string, after: bool, a: string, x: string, y: string)
    requires Proper(cc) && GoodPrefix(cc, prefix) && a != "" && a[|a| - 1] == '>' && !Stable(cc, prefix, after, a)
    ensures Substitute(cc, prefix, after, a) + x != a + y
    decreases |a|
  {
    hide Width, Substitute, Piece, Stable, StableHere, Proper, GoodPrefix;
    var n := Width(cc, after, a);
    var rest := Substitute(cc, prefix, cc.word(a[n - 1]), a[n..]);
    SubstituteUnfolds(cc, prefix, after, a);
    StableUnfolds(cc, prefix, after, a);
    if !StableHere(cc, prefix, after, a) {
      WidthBeforeBracket(cc, prefix, after, a, y);
      ReplacementDiffers(cc, prefix, after, a + y, rest + x);
      assert Substitute(cc, prefix, after, a) + x == Piece(cc, prefix, after, a) + (rest + x);
    } else {
      PieceIsFixed(cc, prefix, after, a);
      EmptyIsStable(cc, prefix, cc.word(a[n - 1]));
      SubstituteDiffers(cc, prefix, cc.word(a[n - 1]), a[n..], x, y);
      BehindPiece(a, n, rest, x, y);
    }
  }

  lemma BehindPiece(a: string, n: nat, rest: string, x: string, y: string)
    requires n <= |a| && rest + x != a[n..] + y
    ensures a[..n] + rest + x != a + y
  {
    assert (a[..n] + rest + x)[n..] == rest + x;
    assert (a + y)[n..] == a[n..] + y;
  }

  lemma BracketEndsWord(cc: Classes)
    requires Proper(cc)
    ensures !cc.word('>')
  {
  }

  // ----- the injected tag is left alone -----

  predicate StartsName(c: char) {
    FoldsTo(c, 'h') || FoldsTo(c, 's') || FoldsTo(c, 'a') || FoldsTo(c, 'f')
  }

  lemma NoNameThere(cc: Classes, after: bool, t: string)
    requires t != "" && (after || !StartsName(t[0]))
    ensures MatchHere(cc, after, t).NoMatch?
  {
  }

  lemma {:induction false} StableOneOn(cc: Classes, prefix: string, after: bool, c: char, t: string)
    requires MatchHere(cc, after, [c] + t).NoMatch? && Stable(cc, prefix, cc.word(c), t)
    ensures Stable(cc, prefix, after, [c] + t)
  {
  }

  predicate PassedOver(cc: Classes, after: bool, s: string) {
    && (s != "" ==> after || !StartsName(s[0]))
    && forall k | 0 < k < |s| && StartsName(s[k]) :: cc.word(s[k - 1])
  }

  lemma PassedOverRest(cc: Classes, after: bool, s: string)
    requires s != "" && PassedOver(cc, after, s)
    ensures (after || !StartsName(s[0])) && PassedOver(cc, cc.word(s[0]), s[1..])
  {
  }

  /** Letters behind a letter, and characters no name begins with, are passed over. */
  lemma {:induction false} StablePassesOver(cc: Classes, prefix: string, after: bool, s: string, t: string)
    requires PassedOver(cc, after, s)
    requires Stable(cc, prefix, if s == "" then after else cc.word(s[|s| - 1]), t)
    ensures Stable(cc, prefix, after, s + t)
    decreases |s|
  {
    hide Stable, StartsName, PassedOver;
    if s == "" {
      assert s + t == t;
    } else {
      PassedOverRest(cc, after, s);
      StablePassesOver(cc, prefix, cc.word(s[0]), s[1..], t);
      assert s + t == [s[0]] + (s[1..] + t);
      NoNameThere(cc, after, [s[0]] + (s[1..] + t));
      StableOneOn(cc, prefix, after, s[0], s[1..] + t);
    }
  }

  lemma HrefMatches(cc: Classes, p: string)
    requires Proper(cc) && GoodPrefix(cc, p)
    ensures var u := "href=\"" + p + "/\">"; Matches(cc, u, Match(4, 4, 5, 7 + |p|)) && PathOf(u, Match(4, 4, 5, 7 + |p|)) == p + "/"
  {
  }

  lemma {:induction false} BaseTagIsStable(cc: Classes, p: string)
    requires Proper(cc) && GoodPrefix(cc, p)
    ensures Stable(cc, p, false, BaseTag(p))
  {
    hide MatchHere, Stable, StableHere, IsPathChar, NameAt;
    var u := "href=\"" + p + "/\">";
    HrefMatches(cc, p);
    MatchesFound(cc, u, Match(4, 4, 5, 7 + |p|));
    assert u == u[..8 + |p|] + ">" && u[7 + |p|] == '"' && ">" + "" == ">";
    BasePassesOver(cc);
    EmptyIsStable(cc, p, cc.word('>'));
    StablePassesOver(cc, p, false, ">", "");
    HrefIsStableHere(cc, p, u);
    StableCons(cc, p, false, u[..8 + |p|], ">");
    StablePassesOver(cc, p, false, "<base ", u);
    assert BaseTag(p) == "<base " + u;
  }

  lemma HrefIsStableHere(cc: Classes, p: string, u: string)
    requires MatchHere(cc, false, u) == Match(4, 4, 5, 7 + |p|) && |u| == 9 + |p| && PathOf(u, Match(4, 4, 5, 7 + |p|)) == p + "/"
    ensures StableHere(cc, p, false, u)
  {
  }

  lemma LettersAreWords(cc: Classes, c: char)
    requires Proper(cc) && 'a' <= c <= 'z'
    ensures cc.word(c) && IsPathChar(cc, c)
  {
    assert FoldsTo(c, c);
    assert c in "abcdefghijklmnopqrstuvwxyz";
    assert IsNameLetter(c);
    NameLettersArePath(cc, c);
  }

  lemma BasePassesOver(cc: Classes)
    requires Proper(cc)
    ensures PassedOver(cc, false, "<base ") && PassedOver(cc, false, ">") && !cc.word(' ') && !cc.word('"')
  {
    hide IsNameLetter;
    LettersAreWords(cc, 'b');
    LettersAreWords(cc, 'a');
    LettersAreWords(cc, 's');
    Punctuation(cc, '"');
    assert !StartsName('<') && !StartsName('b') && !StartsName('e') && !StartsName(' ') && !StartsName('>');
  }

  lemma {:induction false} InjectedIsStable(cc: Classes, p: string, y: string, h: nat)
    requires Proper(cc) && GoodPrefix(cc, p) && 0 < h <= |y| && y[h - 1] == '>'
    ensures Stable(cc, p, false, y[..h] + BaseTag(p) + y[h..]) <==> Stable(cc, p, false, y)
  {
    hide Stable, Proper, GoodPrefix;
    var tag := BaseTag(p);
    BaseTagIsStable(cc, p);
    assert y == y[..h] + y[h..];
    StableSplits(cc, p, false, y[..h], y[h..]);
    StableSplits(cc, p, false, tag, y[h..]);
    StableSplits(cc, p, false, y[..h], tag + y[h..]);
    assert y[..h] + (tag + y[h..]) == y[..h] + tag + y[h..];
  }

  // ----- injecting always shows -----

  lemma {:induction false} TagIsNoBeginning(cc: Classes, p: string, y: string)
    requires Proper(cc) && GoodPrefix(cc, p)
    ensures BaseTag(p) + Substitute(cc, p, false, y) != y
    decreases |y|
  {
    hide Substitute, Stable, Proper, GoodPrefix;
    var tag := BaseTag(p);
    if tag + Substitute(cc, p, false, y) == y {
      var rest := y[|tag|..];
      assert rest == Substitute(cc, p, false, y) && y == tag + rest;
      SubstituteSplits(cc, p, false, tag, rest);
      BaseTagIsStable(cc, p);
      StableIsFixed(cc, p, false, tag);
      TagIsNoBeginning(cc, p, rest);
    }
  }

  /** A pass that injects a base tag never returns the page it was given. */
  lemma {:induction false} InjectionDiffers(cc: Classes, p: string, z: string, h: nat)
    requires Proper(cc) && GoodPrefix(cc, p)
    requires var w := Substitute(cc, p, false, z); 0 < h <= |w| && w[h - 1] == '>'
    ensures var w := Substitute(cc, p, false, z); w[..h] + BaseTag(p) + w[h..] != z
  {
    hide Substitute, Stable, Proper, GoodPrefix, BaseTag;
    var w := Substitute(cc, p, false, z);
    var a, rest := w[..h], BaseTag(p) + w[h..];
    if w[..h] + BaseTag(p) + w[h..] == z {
      assert z == a + rest && w == a + w[h..];
      SubstituteSplits(cc, p, false, a, rest);
      if Stable(cc, p, false, a) {
        StableIsFixed(cc, p, false, a);
        SameBehind(a, w[h..], Substitute(cc, p, false, rest));
        TagIsNoBeginning(cc, p, rest);
      } else {
        SubstituteDiffers(cc, p, false, a, Substitute(cc, p, false, rest), w[h..]);
      }
    }
  }

  lemma SameBehind(a: string, x: string, y: string)
    requires a + x == a + y
    ensures x == y
  {
    assert x == (a + x)[|a|..] && y == (a + y)[|a|..];
  }

  // ----- where the second pass finds the head, and the base tag -----

  lemma {:induction false} SameTagEnd(t: string, u: string, i: nat, n: nat)
    requires i < n <= |t| && n <= |u| && t[..n] == u[..n] && TagEnd(t, i) < n
    ensures TagEnd(u, i) == TagEnd(t, i)
    decreases n - i
  {
  }

  /** The head tag found does not depend on what follows it. */
  lemma {:induction false} SameHeadEnd(cc: Classes, t: string, u: string, i: nat)
    requires i <= |t| && HeadEnd(cc, t, i).Some? && var h := HeadEnd(cc, t, i).value; h <= |u| && t[..h] == u[..h]
    ensures HeadEnd(cc, u, i) == HeadEnd(cc, t, i)
    decreases |t| - i
  {
    hide FoldsTo;
    var h := HeadEnd(cc, t, i).value;
    SamePrefix(t, u, h);
    assert HeadAt(cc, t, i) <==> HeadAt(cc, u, i) by {
      assert t[i + 1..][..4] == u[i + 1..][..4];
      SamePrefix(t[i + 1..], u[i + 1..], 4);
    }
    if HeadAt(cc, t, i) && TagEnd(t, i + 5) < |t| {
      SameTagEnd(t, u, i + 5, h);
    } else {
      SameHeadEnd(cc, t, u, i + 1);
    }
  }

  lemma {:induction false} LowerLengthGrows(s: string, i: nat, j: nat)
    requires i <= j <= |s|
    ensures LowerLength(s[..i]) <= LowerLength(s[..j])
    decreases j
  {
    if i < j {
      LowerLengthGrows(s, i, j - 1);
      assert s[..j][..j - 1] == s[..j - 1];
    }
  }

  /** The tag just put in is seen by the next pass exactly when it starts early enough. */
  lemma InjectedIsSeen(p: string, y: string, h: nat)
    requires !HasBase(y) && 0 < h <= |y| && y[h - 1] == '>'
    ensures HasBase(y[..h] + BaseTag(p) + y[h..]) <==> LowerLength(y[..h]) + 6 <= BASE_WINDOW
  {
    hide LowerLength, HasBase;
    var z := y[..h] + BaseTag(p) + y[h..];
    assert z[..h] == y[..h];
    if LowerLength(y[..h]) + 6 <= BASE_WINDOW {
      assert BaseAt(z, h);
      HasBaseAt(z, h);
    } else if HasBase(z) {
      var i := BaseOf(z);
      SamePrefix(z, y, h);
      BaseIsNoBracket(z, i);
      if i + 6 <= h {
        assert z[..i] == z[..h][..i] == y[..i];
        HasBaseAt(y, i);
      } else if h <= i {
        LowerLengthGrows(z, h, i);
      }
    }
  }

  lemma BaseIsNoBracket(s: string, i: nat)
    requires BaseAt(s, i)
    ensures LowerAscii(s[i + 1]) == 'b' && forall k | i <= k < i + 6 :: s[k] != '>'
  {
    assert LowerAscii(s[i + 1]) == "<base "[1];
    forall k | i <= k < i + 6
      ensures s[k] != '>'
    {
      assert LowerAscii(s[i + (k - i)]) == "<base "[k - i];
    }
  }

  lemma HasBaseAt(s: string, i: nat)
    requires BaseAt(s, i) && LowerLength(s[..i]) + 6 <= BASE_WINDOW
    ensures HasBase(s)
  {
  }

  lemma BaseOf(s: string) returns (i: nat)
    requires HasBase(s)
    ensures i < |s| && BaseAt(s, i) && LowerLength(s[..i]) + 6 <= BASE_WINDOW
  {
    i :| 0 <= i < |s| && BaseAt(s, i) && LowerLength(s[..i]) + 6 <= BASE_WINDOW;
  }

  // ----- one pass is enough, exactly when -----

  /** Where the base tag goes, if one is put in. */
  function TagPosition(py: Python, html: string, prefix: string): Option<nat> {
    var y := Substitute(py.classes, StripSlashes(prefix), false, html);
    if HasBase(y) then None else HeadEnd(py.classes, y, 0)
  }

  /** The tag goes in too far from the start for the next pass to see it. */
  predicate LateTag(py: Python, html: string, prefix: string) {
    var h := TagPosition(py, html, prefix);
    h.Some? && LowerLength(Substitute(py.classes, StripSlashes(prefix), false, html)[..h.value]) + 6 > BASE_WINDOW
  }

  lemma {:induction false} WhatRewriteDoes(py: Python, html: string, prefix: string)
    requires Faithful(py) && PlainPrefix(py.classes, prefix)
    ensures var p := StripSlashes(prefix);
            var y := Substitute(py.classes, p, false, html);
            Rewrite(py, html, prefix) == match TagPosition(py, html, prefix) case None => y case Some(h) => y[..h] + BaseTag(p) + y[h..]
  {
    hide Substitute, HasBase, HeadEnd;
    StripSlashesIsGood(py.classes, prefix);
    assert '\\' !in BaseTag(StripSlashes(prefix));
  }

  lemma {:induction false} UnchangedExactly(py: Python, z: string, prefix: string)
    requires Faithful(py) && PlainPrefix(py.classes, prefix)
    ensures Rewrite(py, z, prefix) == z
            <==> Substitute(py.classes, StripSlashes(prefix), false, z) == z && TagPosition(py, z, prefix).None?
  {
    hide Substitute, HasBase, HeadEnd, GoodPrefix, Proper, PlainPrefix, Rewrite, StripSlashes, BaseTag;
    StripSlashesIsGood(py.classes, prefix);
    WhatRewriteDoes(py, z, prefix);
    var tag := TagPosition(py, z, prefix);
    if tag.Some? {
      InjectionDiffers(py.classes, StripSlashes(prefix), z, tag.value);
    }
  }

  /** Rewriting twice is rewriting once exactly when the substitution has nothing more to do after the first
      pass and no base tag was put in late: otherwise every pass adds another. */
  lemma {:induction false} RewriteIsIdempotentExactly(py: Python, html: string, prefix: string)
    requires Faithful(py) && PlainPrefix(py.classes, prefix)
    ensures var y := Substitute(py.classes, StripSlashes(prefix), false, html);
            Rewrite(py, Rewrite(py, html, prefix), prefix) == Rewrite(py, html, prefix)
            <==> Substitute(py.classes, StripSlashes(prefix), false, y) == y && !LateTag(py, html, prefix)
  {
    hide Substitute, Stable, HasBase, HeadEnd, GoodPrefix, Proper, PlainPrefix, Rewrite, StripSlashes, LowerLength, BaseTag;
    var cc, p, z := py.classes, StripSlashes(prefix), Rewrite(py, html, prefix);
    var y := Substitute(cc, p, false, html);
    StripSlashesIsGood(cc, prefix);
    WhatRewriteDoes(py, html, prefix);
    UnchangedExactly(py, z, prefix);
    FixedExactlyWhenStable(cc, p, y);
    FixedExactlyWhenStable(cc, p, z);
    var tag := TagPosition(py, html, prefix);
    if tag.Some? {
      InjectedIsStable(cc, p, y, tag.value);
      InjectedIsSeen(p, y, tag.value);
      InjectedAgain(cc, p, y, tag.value);
    }
  }

  lemma {:induction false} FixedExactlyWhenStable(cc: Classes, p: string, t: string)
    requires Proper(cc) && GoodPrefix(cc, p)
    ensures Substitute(cc, p, false, t) == t <==> Stable(cc, p, false, t)
  {
    hide Substitute, Stable, Proper, GoodPrefix;
    if Stable(cc, p, false, t) {
      StableIsFixed(cc, p, false, t);
    } else if Substitute(cc, p, false, t) == t {
      FixedIsStable(cc, p, false, t);
    }
  }

  /** In terms of the page: it must be quiet. */
  lemma {:induction false} QuietPagesAreIdempotent(py: Python, html: string, prefix: string)
    requires Faithful(py) && PlainPrefix(py.classes, prefix)
    ensures Rewrite(py, Rewrite(py, html, prefix), prefix) == Rewrite(py, html, prefix)
            <==> Quiet(py.classes, StripSlashes(prefix), false, html) && !LateTag(py, html, prefix)
  {
    hide Rewrite, LateTag, Quiet, PlainPrefix, StripSlashes, GoodPrefix, Substitute;
    StripSlashesIsGood(py.classes, prefix);
    SecondPassChangesNothingExactly(py.classes, StripSlashes(prefix), false, html);
    RewriteIsIdempotentExactly(py, html, prefix);
  }

  /** A page without blanks around the `=` of a rewritten attribute always is. */
  lemma {:induction false} TightPagesAreIdempotent(py: Python, html: string, prefix: string)
    requires Faithful(py) && PlainPrefix(py.classes, prefix) && Tight(py.classes, StripSlashes(prefix), false, html)
    ensures Rewrite(py, Rewrite(py, html, prefix), prefix) == Rewrite(py, html, prefix) <==> !LateTag(py, html, prefix)
  {
    hide Rewrite, LateTag, Tight, Calm, Quiet, PlainPrefix, StripSlashes;
    TightIsCalm(py.classes, StripSlashes(prefix), false, html);
    CalmIsQuiet(py.classes, StripSlashes(prefix), false, html);
    QuietPagesAreIdempotent(py, html, prefix);
  }

  lemma {:induction false} InjectedAgain(cc: Classes, p: string, y: string, h: nat)
    requires HeadEnd(cc, y, 0) == Some(h)
    ensures var z := y[..h] + BaseTag(p) + y[h..]; HeadEnd(cc, z, 0) == Some(h) && z[..h] + BaseTag(p) + z[h..] != z
  {
    hide HeadEnd;
    var z := y[..h] + BaseTag(p) + y[h..];
    assert z[..h] == y[..h];
    SameHeadEnd(cc, y, z, 0);
    assert |z[..h] + BaseTag(p) + z[h..]| > |z|;
  }

  // ----- and it can be undone -----

  /** Deletes the base tag at its place, then one prefix after each gap; fails where the text is something else. */
  function Unwrite(p: string, gaps: seq<nat>, at: Option<nat>, z: string): Option<string> {
    match at
    case None => Restore(p, gaps, z)
    case Some(h) =>
      if h <= |z| && StartsWith(z[h..], BaseTag(p)) then Restore(p, gaps, z[..h] + z[h + |BaseTag(p)|..]) else None
  }

  /** Deleting the inserted prefixes and base tag gives back the input without the blanks around the `=` of
      rewritten attributes: the input itself exactly if it has none. */
  lemma {:induction false} UnwriteUndoesExactly(py: Python, html: string, prefix: string)
    requires Faithful(py) && PlainPrefix(py.classes, prefix)
    ensures var p := StripSlashes(prefix);
            var back := Unwrite(p, Gaps(py.classes, p, false, html), TagPosition(py, html, prefix), Rewrite(py, html, prefix));
            && back == Some(Tightened(py.classes, p, false, html))
            && (back == Some(html) <==> Tight(py.classes, p, false, html))
  {
    hide Substitute, Tight, Tightened, HasBase, HeadEnd, Restore, Gaps, Rewrite, StripSlashes, BaseTag, PlainPrefix;
    var p := StripSlashes(prefix);
    var y := Substitute(py.classes, p, false, html);
    var z := Rewrite(py, html, prefix);
    RestoreTightens(py.classes, p, false, html);
    TightenedIsShorter(py.classes, p, false, html);
    WhatRewriteDoes(py, html, prefix);
    match TagPosition(py, html, prefix) {
      case None =>
      case Some(h) =>
        assert z[h..] == BaseTag(p) + y[h..];
        assert z[..h] + z[h + |BaseTag(p)|..] == y;
    }
  }
}
