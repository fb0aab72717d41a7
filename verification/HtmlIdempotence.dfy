/** What a second substitution finds: the attributes that were there, and those that the first pass closed, where a
    rewritten attribute starts inside the path of an attribute whose quote is never closed. */
module HtmlIdempotence {
  import opened Wrappers
  import opened HtmlRewrite

  predicate AfterWord(cc: Classes, after: bool, t: string, j: nat)
    requires j <= |t|
  {
    if j == 0 then after else cc.word(t[j - 1])
  }

  /** Where the scan rewrites first. */
  function FirstRewrite(cc: Classes, prefix: string, after: bool, t: string): (j: Option<nat>)
    ensures j.Some? ==> j.value < |t|
    decreases |t|
  {
    if t == "" then None
    else if !StableHere(cc, prefix, after, t) then Some(0)
    else
      var n := Width(cc, after, t);
      match FirstRewrite(cc, prefix, cc.word(t[n - 1]), t[n..])
      case None => None
      case Some(j) => Some(n + j)
  }

  /** An attribute opens here, its path runs on unclosed, and the next rewritten attribute starts within it. */
  predicate Nested(cc: Classes, prefix: string, after: bool, t: string) {
    var o, j := OpeningHere(cc, after, t), FirstRewrite(cc, prefix, after, t);
    o.Opening? && MatchHere(cc, after, t).NoMatch? && j.Some? && o.quote + 2 <= j.value < PathEnd(cc, t, o.quote + 2)
  }

  /** Nothing the scan passes is nested. */
  predicate Calm(cc: Classes, prefix: string, after: bool, t: string)
    decreases |t|
  {
    t == ""
    || var n := Width(cc, after, t); !Nested(cc, prefix, after, t) && Calm(cc, prefix, cc.word(t[n - 1]), t[n..])
  }

  /** Where the name of the first rewritten attribute ends. */
  function NameEnd(cc: Classes, prefix: string, after: bool, t: string): (e: nat)
    requires FirstRewrite(cc, prefix, after, t).Some?
    ensures e <= |t|
  {
    var j := FirstRewrite(cc, prefix, after, t).value;
    j + NameLength(t[j..])
  }

  /** The path the open attribute gets when the next quote closes it. */
  function NewPath(cc: Classes, prefix: string, after: bool, t: string): string
    requires Nested(cc, prefix, after, t)
  {
    var q, e := OpeningHere(cc, after, t).quote, NameEnd(cc, prefix, after, t);
    if q + 1 <= e then t[q + 1..e] + "=" else ""
  }

  /** The first attribute to be rewritten. */
  function RewriteMatch(cc: Classes, prefix: string, after: bool, t: string): Match
    requires FirstRewrite(cc, prefix, after, t).Some?
  {
    var j := FirstRewrite(cc, prefix, after, t).value;
    MatchHere(cc, AfterWord(cc, after, t, j), t[j..])
  }

  /** The position behind it. */
  function Behind(cc: Classes, prefix: string, after: bool, t: string): (b: nat)
    requires FirstRewrite(cc, prefix, after, t).Some?
    ensures 0 < b <= |t|
  {
    var j, m := FirstRewrite(cc, prefix, after, t).value, RewriteMatch(cc, prefix, after, t);
    if m.Match? then j + m.close + 1 else |t|
  }

  function RewritePath(cc: Classes, prefix: string, after: bool, t: string): string
    requires FirstRewrite(cc, prefix, after, t).Some?
  {
    var m := RewriteMatch(cc, prefix, after, t);
    if m.Match? then PathOf(t[FirstRewrite(cc, prefix, after, t).value..], m) else ""
  }

  // ----- up to the first rewrite nothing changes -----

  lemma {:induction false} NoRewriteIsStable(cc: Classes, prefix: string, after: bool, t: string)
    requires FirstRewrite(cc, prefix, after, t).None?
    ensures Stable(cc, prefix, after, t)
    decreases |t|
  {
    hide Width, StableHere;
    if t != "" {
      var n := Width(cc, after, t);
      NoRewriteIsStable(cc, prefix, cc.word(t[n - 1]), t[n..]);
    }
  }

  lemma MatchKnowsName(cc: Classes, after: bool, t: string)
    requires MatchHere(cc, after, t).Match?
    ensures !after && MatchHere(cc, after, t).name == NameLength(t)
  {
  }

  /** The text before the first rewrite, at `j`, stands; then the replacement follows, and `rest`. */
  ghost predicate ChangesAt(cc: Classes, prefix: string, after: bool, t: string, u: string, j: nat, rest: string) {
    j < |t|
    && var m := MatchHere(cc, AfterWord(cc, after, t, j), t[j..]);
       m.Match? && !IsPrefixed(PathOf(t[j..], m), prefix) && u == t[..j] + Replacement(prefix, t[j..], m) + rest
  }

  lemma ChangesFurther(cc: Classes, prefix: string, after: bool, p: string, t: string, u: string, j: nat, rest: string)
    requires p != "" && ChangesAt(cc, prefix, cc.word(p[|p| - 1]), t, u, j, rest)
    ensures ChangesAt(cc, prefix, after, p + t, p + u, |p| + j, rest)
  {
    hide MatchHere, IsPrefixed, Replacement;
    assert (p + t)[|p| + j..] == t[j..];
    assert AfterWord(cc, after, p + t, |p| + j) == AfterWord(cc, cc.word(p[|p| - 1]), t, j);
    var r := Replacement(prefix, t[j..], MatchHere(cc, AfterWord(cc, cc.word(p[|p| - 1]), t, j), t[j..]));
    assert p + (t[..j] + r + rest) == (p + t)[..|p| + j] + r + rest;
  }

  lemma ChangesHere(cc: Classes, prefix: string, after: bool, t: string, rest: string)
    requires t != "" && !StableHere(cc, prefix, after, t)
    ensures ChangesAt(cc, prefix, after, t, Piece(cc, prefix, after, t) + rest, 0, rest)
  {
    hide MatchHere, IsPrefixed, Replacement;
    assert t[0..] == t && t[..0] + Piece(cc, prefix, after, t) == Piece(cc, prefix, after, t);
  }

  /** What the scan writes behind the first rewritten attribute. */
  function Remainder(cc: Classes, prefix: string, after: bool, t: string): string
    requires FirstRewrite(cc, prefix, after, t).Some?
  {
    var b := Behind(cc, prefix, after, t);
    Substitute(cc, prefix, cc.word(t[b - 1]), t[b..])
  }

  lemma PlaceFurther(cc: Classes, after: bool, p: string, t: string, j: nat)
    requires p != "" && j <= |t|
    ensures AfterWord(cc, after, p + t, |p| + j) == AfterWord(cc, cc.word(p[|p| - 1]), t, j) && (p + t)[|p| + j..] == t[j..]
  {
  }

  lemma {:induction false} RewriteFurther(cc: Classes, prefix: string, after: bool, t: string, n: nat, r: string, j: nat)
    requires t != "" && StableHere(cc, prefix, after, t) && n == Width(cc, after, t) && r == t[n..]
    ensures FirstRewrite(cc, prefix, after, t) == Some(n + j) <==> FirstRewrite(cc, prefix, cc.word(t[n - 1]), r) == Some(j)
    ensures FirstRewrite(cc, prefix, after, t).Some? <==> FirstRewrite(cc, prefix, cc.word(t[n - 1]), r).Some?
  {
    hide Width, StableHere;
  }

  lemma {:induction false} BehindFurther(cc: Classes, prefix: string, after: bool, p: string, r: string, j: nat)
    requires p != "" && FirstRewrite(cc, prefix, cc.word(p[|p| - 1]), r) == Some(j)
    requires FirstRewrite(cc, prefix, after, p + r) == Some(|p| + j)
    ensures Remainder(cc, prefix, after, p + r) == Remainder(cc, prefix, cc.word(p[|p| - 1]), r)
  {
    hide MatchHere, Substitute, FirstRewrite, AfterWord;
    PlaceFurther(cc, after, p, r, j);
    var b := Behind(cc, prefix, cc.word(p[|p| - 1]), r);
    assert Behind(cc, prefix, after, p + r) == |p| + b;
    assert (p + r)[|p| + b..] == r[b..];
  }

  lemma {:induction false} RemainderHere(cc: Classes, prefix: string, after: bool, t: string)
    requires t != "" && !StableHere(cc, prefix, after, t)
    ensures FirstRewrite(cc, prefix, after, t) == Some(0)
    ensures var n := Width(cc, after, t); Remainder(cc, prefix, after, t) == Substitute(cc, prefix, cc.word(t[n - 1]), t[n..])
  {
    hide MatchHere, IsPrefixed, Substitute;
    assert t[0..] == t;
  }

  lemma {:induction false} NoRewriteInNothing(cc: Classes, prefix: string, after: bool)
    ensures FirstRewrite(cc, prefix, after, "").None?
  {
  }

  lemma {:induction false} UpToRewrite(cc: Classes, prefix: string, after: bool, t: string)
    requires FirstRewrite(cc, prefix, after, t).Some?
    ensures ChangesAt(cc, prefix, after, t, Substitute(cc, prefix, after, t), FirstRewrite(cc, prefix, after, t).value,
                      Remainder(cc, prefix, after, t))
    decreases |t|
  {
    hide Width, Piece, StableHere, ChangesAt, Remainder, FirstRewrite, Substitute;
    NoRewriteInNothing(cc, prefix, after);
    var n := Width(cc, after, t);
    if StableHere(cc, prefix, after, t) {
      RewriteIsBehind(cc, prefix, after, t);
      UpToRewrite(cc, prefix, cc.word(t[n - 1]), t[n..]);
      StablePieceOn(cc, prefix, after, t, t[..n], t[n..]);
    } else {
      RemainderHere(cc, prefix, after, t);
      ChangesHere(cc, prefix, after, t, Substitute(cc, prefix, cc.word(t[n - 1]), t[n..]));
      SubstituteIs(cc, prefix, after, t, n);
    }
  }

  lemma {:induction false} SubstituteIs(cc: Classes, prefix: string, after: bool, t: string, n: nat)
    requires t != "" && n == Width(cc, after, t)
    ensures Substitute(cc, prefix, after, t) == Piece(cc, prefix, after, t) + Substitute(cc, prefix, cc.word(t[n - 1]), t[n..])
  {
    hide Width, Piece;
  }

  lemma {:induction false} RewriteIsBehind(cc: Classes, prefix: string, after: bool, t: string)
    requires t != "" && StableHere(cc, prefix, after, t)
    ensures var n := Width(cc, after, t);
            FirstRewrite(cc, prefix, after, t).Some? <==> FirstRewrite(cc, prefix, cc.word(t[n - 1]), t[n..]).Some?
  {
    hide Width, StableHere;
  }

  /** A stable piece in front of a text whose first change is known. */
  lemma {:induction false} StablePieceOn(cc: Classes, prefix: string, after: bool, t: string, p: string, r: string)
    requires t != "" && StableHere(cc, prefix, after, t) && p == t[..Width(cc, after, t)] && r == t[Width(cc, after, t)..]
    requires FirstRewrite(cc, prefix, cc.word(p[|p| - 1]), r).Some?
    requires var b := cc.word(p[|p| - 1]);
             ChangesAt(cc, prefix, b, r, Substitute(cc, prefix, b, r), FirstRewrite(cc, prefix, b, r).value, Remainder(cc, prefix, b, r))
    ensures FirstRewrite(cc, prefix, after, t).Some?
    ensures ChangesAt(cc, prefix, after, t, Substitute(cc, prefix, after, t), FirstRewrite(cc, prefix, after, t).value,
                      Remainder(cc, prefix, after, t))
  {
    hide Width, Piece, StableHere, ChangesAt, Remainder, FirstRewrite, Substitute;
    var b := cc.word(p[|p| - 1]);
    var j := FirstRewrite(cc, prefix, b, r).value;
    RewriteFurther(cc, prefix, after, t, |p|, r, j);
    PieceIsFixed(cc, prefix, after, t);
    SubstituteIs(cc, prefix, after, t, |p|);
    assert t == p + r;
    BehindFurther(cc, prefix, after, p, r, j);
    ChangesFurther(cc, prefix, after, p, r, Substitute(cc, prefix, b, r), j, Remainder(cc, prefix, b, r));
  }

  // ----- a new match is a nested one, and the other way round -----

  /** What a second pass would have to see at the start of `v`, the text `s` after the first pass: the open
      attribute of `s`, closed by the quote of the first rewritten attribute. */
  function Closed(o: Opening, e: nat): Match
    requires o.Opening?
  {
    Match(o.name, o.equals, o.quote, e + 1)
  }

  lemma ReplacementStarts(prefix: string, t: string, m: Match, before: string, rest: string)
    requires m.Match? && m.name <= m.quote < m.close < |t| && !IsPrefixed(PathOf(t, m), prefix)
    ensures var v, e := before + Replacement(prefix, t, m) + rest, |before| + m.name;
            e + 2 < |v| && v[..e] == before + t[..m.name] && v[e] == '=' && v[e + 1] == t[m.quote]
  {
  }

  lemma LettersFurther(s: string, k: nat, n: nat)
    requires k + n <= |s| && forall i | 0 <= i < n :: IsNameLetter(s[k..][i])
    ensures s[..k] + s[k..][..n] == s[..k + n] && forall i | k <= i < k + n :: IsNameLetter(s[i])
  {
  }

  /** The replaced text at a glance: up to the end `e` of the name as before, then `=` and a quote. */
  lemma AroundTheName(cc: Classes, prefix: string, after: bool, s: string, v: string, k: nat,
          rest: string) returns (e: nat)
    requires ChangesAt(cc, prefix, after, s, v, k, rest)
    ensures k < e < |s| && e + 2 < |v| && v[..e] == s[..e] && v[e] == '=' && IsQuote(v[e + 1])
    ensures e == k + NameLength(s[k..]) && !AfterWord(cc, after, s, k) && forall i | k <= i < e :: IsNameLetter(s[i])
  {
    hide MatchHere, IsPrefixed, IsNameLetter, NameLength, NameAt, Proper, Replacement, IsPathChar, AfterWord;
    var b, t := AfterWord(cc, after, s, k), s[k..];
    var m := MatchHere(cc, b, t);
    FoundMatches(cc, b, t);
    MatchKnowsName(cc, b, t);
    NameChars(t, m.name);
    LettersFurther(s, k, m.name);
    ReplacementStarts(prefix, t, m, s[..k], rest);
    e := k + m.name;
  }

  lemma NameLettersArePath(cc: Classes, c: char)
    requires Proper(cc) && IsNameLetter(c)
    ensures IsPathChar(cc, c) && cc.word(c) && c != '=' && c != '/' && !cc.space(c)
  {
  }

  /** `v` agrees with `s` up to `e`, where a name ends that starts at `k`; then `=` and a quote follow in `v`. */
  ghost predicate Agree(cc: Classes, s: string, v: string, k: nat, e: nat) {
    && 0 < k < e <= |s| && e + 2 <= |v| && v[..e] == s[..e] && v[e] == '=' && IsQuote(v[e + 1])
    && !cc.word(s[k - 1]) && forall i | k <= i < e :: IsNameLetter(s[i])
  }

  /** A match that reaches the name at `k` has it in its path. */
  lemma NameLiesInPath(cc: Classes, s: string, v: string, k: nat, e: nat, m: Match)
    requires Proper(cc) && Agree(cc, s, v, k, e) && Matches(cc, v, m) && e <= m.close
    ensures m.quote + 2 <= k
  {
    hide IsNameLetter, NameAt, IsPathChar, Proper;
    SamePrefix(s, v, e);
    NameChars(v, m.name);
    NameLettersArePath(cc, s[k]);
    Punctuation(cc, v[m.quote]);
    LetterIsNoQuote(cc, s[k]);
    if k < m.name {
      NameLettersArePath(cc, v[k - 1]);
    }
  }

  lemma LetterIsNoQuote(cc: Classes, c: char)
    requires Proper(cc) && IsNameLetter(c)
    ensures !IsQuote(c)
  {
  }

  lemma ClosesAtTheQuote(cc: Classes, s: string, v: string, k: nat, e: nat, m: Match)
    requires Proper(cc) && Agree(cc, s, v, k, e) && Matches(cc, v, m) && e <= m.close
    ensures m.close == e + 1
  {
    hide IsNameLetter, NameAt, Proper, Opens;
    NameLiesInPath(cc, s, v, k, e, m);
    assert IsQuote(v[e + 1]);
  }

  lemma {:induction false} PathGoesOn(cc: Classes, s: string, v: string, i: nat, k: nat, e: nat)
    requires i <= k < e <= |s| && e <= |v| && v[..e] == s[..e] && forall x | i <= x < e :: IsPathChar(cc, v[x])
    ensures k < PathEnd(cc, s, i)
  {
    hide IsPathChar;
    SamePrefix(s, v, e);
    forall x | i <= x < e
      ensures IsPathChar(cc, s[x])
    {
      assert IsPathChar(cc, v[x]);
    }
  }

  /** A match that was not there before comes from an open attribute around the name. */
  lemma {:induction false} NewMatchIsAround(cc: Classes, after: bool, s: string, v: string, k: nat, e: nat)
    requires Proper(cc) && Agree(cc, s, v, k, e) && MatchHere(cc, after, s).NoMatch? && MatchHere(cc, after, v).Match?
    ensures var o := OpeningHere(cc, after, s);
            && o.Opening? && o.quote + 2 <= k < PathEnd(cc, s, o.quote + 2) && MatchHere(cc, after, v) == Closed(o, e)
  {
    hide MatchHere, OpeningHere, IsNameLetter, NameAt, IsPathChar, Proper, PathEnd;
    var m := MatchHere(cc, after, v);
    FoundMatches(cc, after, v);
    if m.close < e {
      MatchDependsOnPrefix(cc, after, v, s, e);
    } else {
      NameLiesInPath(cc, s, v, k, e, m);
      ClosesAtTheQuote(cc, s, v, k, e, m);
      MatchOpens(cc, after, v);
      OpeningDependsOnPrefix(cc, after, v, s, e);
      PathGoesOn(cc, s, v, m.quote + 2, k, e);
    }
  }

  lemma MatchOpens(cc: Classes, after: bool, t: string)
    requires MatchHere(cc, after, t).Match?
    ensures OpeningHere(cc, after, t) == OpeningOf(MatchHere(cc, after, t))
  {
  }

  /** And such an open attribute is closed by the quote behind the name. */
  lemma {:induction false} AroundIsNewMatch(cc: Classes, after: bool, s: string, v: string, k: nat, e: nat)
    requires Proper(cc) && Agree(cc, s, v, k, e) && OpeningHere(cc, after, s).Opening?
    requires var o := OpeningHere(cc, after, s); o.quote + 2 <= k < PathEnd(cc, s, o.quote + 2)
    ensures MatchHere(cc, after, v) == Closed(OpeningHere(cc, after, s), e)
  {
    hide MatchHere, OpeningHere, IsNameLetter, NameAt, IsPathChar, Proper, PathEnd;
    var o := OpeningHere(cc, after, s);
    SamePrefix(s, v, e);
    OpeningDependsOnPrefix(cc, after, s, v, e);
    FoundOpens(cc, after, v);
    Punctuation(cc, '=');
    forall x | o.quote + 2 <= x < e + 1
      ensures IsPathChar(cc, v[x])
    {
      if k <= x < e { NameLettersArePath(cc, s[x]); }
    }
    assert Matches(cc, v, Closed(o, e));
    MatchesFound(cc, v, Closed(o, e));
  }

  // ----- the two together, at the start of a text no match starts at -----

  lemma Surroundings(cc: Classes, prefix: string, after: bool, s: string) returns (k: nat, e: nat)
    requires Proper(cc) && s != "" && MatchHere(cc, after, s).NoMatch? && FirstRewrite(cc, prefix, after, s).Some?
    ensures k == FirstRewrite(cc, prefix, after, s).value && e == NameEnd(cc, prefix, after, s)
    ensures Agree(cc, s, Substitute(cc, prefix, after, s), k, e)
  {
    hide MatchHere, Substitute, ChangesAt, NameLength, IsNameLetter, FirstRewrite, Proper, Remainder;
    k := FirstRewrite(cc, prefix, after, s).value;
    NotHere(cc, prefix, after, s);
    UpToRewrite(cc, prefix, after, s);
    e := AroundTheName(cc, prefix, after, s, Substitute(cc, prefix, after, s), k, Remainder(cc, prefix, after, s));
  }

  lemma {:induction false} NotHere(cc: Classes, prefix: string, after: bool, s: string)
    requires s != "" && MatchHere(cc, after, s).NoMatch? && FirstRewrite(cc, prefix, after, s).Some?
    ensures FirstRewrite(cc, prefix, after, s).value > 0
  {
  }

  /** Rewriting creates a match exactly where the text is nested. */
  lemma {:induction false} NewMatchExactlyWhenNested(cc: Classes, prefix: string, after: bool, s: string)
    requires Proper(cc) && s != "" && MatchHere(cc, after, s).NoMatch?
    ensures var m := MatchHere(cc, after, Substitute(cc, prefix, after, s));
            && (m.Match? <==> Nested(cc, prefix, after, s))
            && (m.Match? ==> PathOf(Substitute(cc, prefix, after, s), m) == NewPath(cc, prefix, after, s))
  {
    hide MatchHere, OpeningHere, Substitute, FirstRewrite, Agree, NameEnd, PathEnd, Proper;
    if FirstRewrite(cc, prefix, after, s).None? {
      NoRewriteIsStable(cc, prefix, after, s);
      StableIsFixed(cc, prefix, after, s);
    } else {
      var k, e := Surroundings(cc, prefix, after, s);
      var v := Substitute(cc, prefix, after, s);
      if MatchHere(cc, after, v).Match? {
        NewMatchIsAround(cc, after, s, v, k, e);
        NewPathIs(cc, s, v, k, e, OpeningHere(cc, after, s).quote + 1);
      } else if Nested(cc, prefix, after, s) {
        AroundIsNewMatch(cc, after, s, v, k, e);
      }
    }
  }

  lemma NewPathIs(cc: Classes, s: string, v: string, k: nat, e: nat, q: nat)
    requires Agree(cc, s, v, k, e) && q <= k
    ensures v[q..e + 1] == s[q..e] + "="
  {
  }

  // ----- what is read again -----

  /** What the scan wrote is read again as the same piece, unless the text is nested here. */
  lemma {:induction false} PieceIsReadAgain(cc: Classes, prefix: string, after: bool, t: string)
    requires Proper(cc) && GoodPrefix(cc, prefix) && t != "" && !Nested(cc, prefix, after, t)
    ensures var n := Width(cc, after, t);
            var p := Piece(cc, prefix, after, t);
            var u := p + Substitute(cc, prefix, cc.word(t[n - 1]), t[n..]);
            p != "" && p[|p| - 1] == t[n - 1] && Width(cc, after, u) == |p| && StableHere(cc, prefix, after, u)
  {
    hide MatchHere, Nested, Replacement, IsPrefixed, Proper, GoodPrefix;
    if MatchHere(cc, after, t).NoMatch? {
      NewMatchExactlyWhenNested(cc, prefix, after, t);
    } else {
      PieceIsStable(cc, prefix, after, t, Substitute(cc, prefix, cc.word(t[Width(cc, after, t) - 1]), t[Width(cc, after, t)..]));
    }
  }

  lemma {:induction false} StableConsExactly(cc: Classes, prefix: string, after: bool, p: string, v: string)
    requires p != "" && Width(cc, after, p + v) == |p| && StableHere(cc, prefix, after, p + v)
    ensures Stable(cc, prefix, after, p + v) <==> Stable(cc, prefix, cc.word(p[|p| - 1]), v)
  {
    hide Width, StableHere;
    assert (p + v)[|p|..] == v;
  }

  // ----- what is nested -----

  lemma {:induction false} NestedHasRewrite(cc: Classes, prefix: string, after: bool, t: string)
    requires Nested(cc, prefix, after, t)
    ensures FirstRewrite(cc, prefix, after, t).Some?
  {
  }

  /** The path and the closing quote of the first rewritten attribute. */
  lemma {:induction false} RewriteIs(cc: Classes, prefix: string, after: bool, t: string, u: string, rest: string)
    requires FirstRewrite(cc, prefix, after, t).Some?
    requires ChangesAt(cc, prefix, after, t, u, FirstRewrite(cc, prefix, after, t).value, rest)
    ensures var j, m := FirstRewrite(cc, prefix, after, t).value, RewriteMatch(cc, prefix, after, t);
            && m.Match? && Matches(cc, t[j..], m) && !IsPrefixed(PathOf(t[j..], m), prefix)
            && NameEnd(cc, prefix, after, t) == j + m.name && t[Behind(cc, prefix, after, t) - 1] == t[j..][m.close]
            && RewritePath(cc, prefix, after, t) == PathOf(t[j..], m) && u == t[..j] + Replacement(prefix, t[j..], m) + rest
  {
    hide MatchHere, FirstRewrite, NameAt, NameLength, IsPrefixed, IsPathChar, Replacement, Matches, AfterWord;
    var j := FirstRewrite(cc, prefix, after, t).value;
    FoundMatches(cc, AfterWord(cc, after, t, j), t[j..]);
    MatchKnowsName(cc, AfterWord(cc, after, t, j), t[j..]);
  }

  /** The text behind a nested attribute that the next pass closes. */
  lemma {:induction false} NestedRemainder(cc: Classes, prefix: string, after: bool, t: string)
    requires Proper(cc) && GoodPrefix(cc, prefix) && FirstRewrite(cc, prefix, after, t).Some?
    ensures var v, e := Substitute(cc, prefix, after, t), NameEnd(cc, prefix, after, t);
            var path, q := RewritePath(cc, prefix, after, t), t[Behind(cc, prefix, after, t) - 1];
            && e + 2 <= |v| && v[e + 2..] == prefix + path + [q] + Remainder(cc, prefix, after, t)
            && path != "" && path[0] == '/' && IsQuote(q)
            && forall k | 0 <= k < |prefix + path| :: IsPathChar(cc, (prefix + path)[k])
  {
    hide MatchHere, Substitute, FirstRewrite, NameAt, NameEnd, IsPrefixed, Proper, GoodPrefix, Remainder, IsPathChar,
      RewriteMatch, RewritePath, Behind, Replacement, ChangesAt, AfterWord;
    var j, m := FirstRewrite(cc, prefix, after, t).value, RewriteMatch(cc, prefix, after, t);
    UpToRewrite(cc, prefix, after, t);
    RewriteIs(cc, prefix, after, t, Substitute(cc, prefix, after, t), Remainder(cc, prefix, after, t));
    AfterTheName(prefix, t[j..], m, t[..j], Remainder(cc, prefix, after, t));
    forall k | 0 <= k < |prefix + PathOf(t[j..], m)|
      ensures IsPathChar(cc, (prefix + PathOf(t[j..], m))[k])
    {
      PathChars(cc, prefix, t[j..], m, k);
    }
  }

  lemma AfterTheName(prefix: string, t: string, m: Match, before: string, rest: string)
    requires m.Match? && m.name <= m.quote < m.close < |t| && !IsPrefixed(PathOf(t, m), prefix)
    ensures var v, e := before + Replacement(prefix, t, m) + rest, |before| + m.name;
            e + 2 <= |v| && v[e + 2..] == prefix + PathOf(t, m) + [t[m.close]] + rest
  {
    hide IsPrefixed;
    var head, tail := t[..m.name] + ['=', t[m.quote]], prefix + PathOf(t, m) + [t[m.close]];
    assert Replacement(prefix, t, m) == head + tail;
    assert before + Replacement(prefix, t, m) + rest == (before + head) + (tail + rest);
  }

  lemma {:induction false} NestedCloses(cc: Classes, prefix: string, after: bool, t: string)
    requires Proper(cc) && t != "" && Nested(cc, prefix, after, t)
    ensures var v, e := Substitute(cc, prefix, after, t), NameEnd(cc, prefix, after, t);
            && v != "" && Width(cc, after, v) == e + 2 && e + 2 <= |v| && !cc.word(v[e + 1])
            && (StableHere(cc, prefix, after, v) <==> IsPrefixed(NewPath(cc, prefix, after, t), prefix))
  {
    hide MatchHere, OpeningHere, Substitute, FirstRewrite, NameEnd, PathEnd, Proper, IsPrefixed, IsNameLetter, NewPath;
    var k, e := Surroundings(cc, prefix, after, t);
    var v := Substitute(cc, prefix, after, t);
    AroundIsNewMatch(cc, after, t, v, k, e);
    NewMatchExactlyWhenNested(cc, prefix, after, t);
    Punctuation(cc, v[e + 1]);
  }

  lemma {:induction false} NestedIsUnstable(cc: Classes, prefix: string, after: bool, t: string)
    requires Proper(cc) && t != "" && Nested(cc, prefix, after, t) && !IsPrefixed(NewPath(cc, prefix, after, t), prefix)
    ensures !Stable(cc, prefix, after, Substitute(cc, prefix, after, t))
  {
    hide MatchHere, NewPath, Substitute, IsPrefixed, Proper, Width, FirstRewrite, PathEnd, StableHere, Nested;
    NestedCloses(cc, prefix, after, t);
    StableUnfolds(cc, prefix, after, Substitute(cc, prefix, after, t));
  }

  /** A replacement is no beginning of the text it replaces. */
  lemma ReplacementDiffers(cc: Classes, prefix: string, after: bool, t: string, rest: string)
    requires Proper(cc) && GoodPrefix(cc, prefix) && t != "" && !StableHere(cc, prefix, after, t)
    ensures Piece(cc, prefix, after, t) + rest != t
  {
    hide MatchHere, NameAt, IsPrefixed, IsPathChar;
    var m := MatchHere(cc, after, t);
    FoundMatches(cc, after, t);
    var path := PathOf(t, m);
    var r := Replacement(prefix, t, m);
    Punctuation(cc, '=');
    if r + rest == t {
      assert r[m.name] == '=' && t[m.name] == '=';
      assert m.equals == m.name;
      assert r[m.name + 1] == t[m.quote] && t[m.name + 1] == t[m.quote];
      Punctuation(cc, t[m.quote]);
      assert m.quote == m.name + 1;
      RewrittenMatches(cc, prefix, t, m, rest);
      MatchesFound(cc, t, m);
      MatchesFound(cc, t, Rewritten(prefix, m));
      SomePrefix(prefix, path);
    }
  }

  lemma {:induction false} FixedIsStable(cc: Classes, prefix: string, after: bool, t: string)
    requires Proper(cc) && GoodPrefix(cc, prefix) && Substitute(cc, prefix, after, t) == t
    ensures Stable(cc, prefix, after, t)
    decreases |t|
  {
    hide Width, Piece, StableHere, Proper, GoodPrefix;
    if t != "" {
      var n := Width(cc, after, t);
      var rest := Substitute(cc, prefix, cc.word(t[n - 1]), t[n..]);
      if !StableHere(cc, prefix, after, t) {
        ReplacementDiffers(cc, prefix, after, t, rest);
      } else {
        PieceIsFixed(cc, prefix, after, t);
        assert rest == (t[..n] + rest)[n..];
        FixedIsStable(cc, prefix, cc.word(t[n - 1]), t[n..]);
      }
    }
  }

  // ----- without blanks around `=` a page is calm -----

  ghost predicate TightAt(cc: Classes, after: bool, t: string, j: nat) {
    j < |t| && var m := MatchHere(cc, AfterWord(cc, after, t, j), t[j..]); m.Match? && m.quote == m.name + 1
  }

  lemma TightFurther(cc: Classes, after: bool, p: string, t: string, j: nat)
    requires p != "" && TightAt(cc, cc.word(p[|p| - 1]), t, j)
    ensures TightAt(cc, after, p + t, |p| + j)
  {
    hide MatchHere;
    assert (p + t)[|p| + j..] == t[j..];
  }

  lemma {:induction false} TightRewrite(cc: Classes, prefix: string, after: bool, t: string)
    requires Tight(cc, prefix, after, t) && FirstRewrite(cc, prefix, after, t).Some?
    ensures TightAt(cc, after, t, FirstRewrite(cc, prefix, after, t).value)
    decreases |t|
  {
    hide Width, StableHere, TightHere, TightAt;
    if StableHere(cc, prefix, after, t) {
      var n := Width(cc, after, t);
      TightRewrite(cc, prefix, cc.word(t[n - 1]), t[n..]);
      assert t == t[..n] + t[n..];
      TightFurther(cc, after, t[..n], t[n..], FirstRewrite(cc, prefix, cc.word(t[n - 1]), t[n..]).value);
    } else {
      TightAtOnce(cc, prefix, after, t);
    }
  }

  lemma TightAtOnce(cc: Classes, prefix: string, after: bool, t: string)
    requires t != "" && TightHere(cc, prefix, after, t) && !StableHere(cc, prefix, after, t)
    ensures TightAt(cc, after, t, 0)
  {
  }

  /** There `t` itself looks the way a rewritten text does. */
  lemma {:induction false} TightAgrees(cc: Classes, prefix: string, after: bool, t: string)
    requires Proper(cc) && Tight(cc, prefix, after, t) && t != "" && MatchHere(cc, after, t).NoMatch? && FirstRewrite(cc, prefix, after, t).Some?
    ensures Agree(cc, t, t, FirstRewrite(cc, prefix, after, t).value, NameEnd(cc, prefix, after, t))
  {
    hide MatchHere, FirstRewrite, Tight, IsNameLetter, NameLength, NameAt, Proper;
    var j := FirstRewrite(cc, prefix, after, t).value;
    var b := AfterWord(cc, after, t, j);
    NotHere(cc, prefix, after, t);
    TightRewrite(cc, prefix, after, t);
    var m := MatchHere(cc, b, t[j..]);
    FoundMatches(cc, b, t[j..]);
    MatchKnowsName(cc, b, t[j..]);
    NameChars(t[j..], m.name);
    LettersFurther(t, j, m.name);
  }

  lemma {:induction false} TightIsNotNested(cc: Classes, prefix: string, after: bool, t: string)
    requires Proper(cc) && Tight(cc, prefix, after, t) && t != ""
    ensures !Nested(cc, prefix, after, t)
  {
    hide MatchHere, FirstRewrite, OpeningHere, Agree, Tight, PathEnd, NameEnd, Proper;
    if Nested(cc, prefix, after, t) {
      TightAgrees(cc, prefix, after, t);
      AroundIsNewMatch(cc, after, t, t, FirstRewrite(cc, prefix, after, t).value, NameEnd(cc, prefix, after, t));
    }
  }

  lemma {:induction false} TightIsCalm(cc: Classes, prefix: string, after: bool, t: string)
    requires Proper(cc) && Tight(cc, prefix, after, t)
    ensures Calm(cc, prefix, after, t)
    decreases |t|
  {
    hide Width, TightHere, Nested, Proper;
    if t != "" {
      var n := Width(cc, after, t);
      TightIsNotNested(cc, prefix, after, t);
      TightIsCalm(cc, prefix, cc.word(t[n - 1]), t[n..]);
    }
  }
}
