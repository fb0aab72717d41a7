/** Rewriting absolute paths in HTML to live under a tunnel prefix: the substitution the regular
    expression makes, scanning from left to right. */
module HtmlRewrite {
  /** Which characters the regular expression takes for word characters (`\w`) and blanks (`\s`). */
  datatype Classes = Classes(word: char -> bool, space: char -> bool)

  predicate IsQuote(c: char) {
    c == '"' || c == '\''
  }

  /** `c` matches the letter `l` when case is ignored, with Python's extra equivalents of s and i. */
  predicate FoldsTo(c: char, l: char) {
    || c == l
    || ('a' <= l <= 'z' && 'A' <= c <= 'Z' && (c as int) - ('A' as int) == (l as int) - ('a' as int))
    || (l == 's' && c == '\U{017F}')
    || (l == 'i' && (c == '\U{0130}' || c == '\U{0131}'))
  }

  predicate IsNameLetter(c: char) {
    exists l: char :: l in "abcdefghijklmnopqrstuvwxyz" && FoldsTo(c, l)
  }

  /** What is true of `\w` and `\s` in Python. */
  ghost predicate Proper(cc: Classes) {
    && (forall c | IsNameLetter(c) :: cc.word(c) && !cc.space(c))
    && (forall c | c in "\"'=/<>" :: !cc.word(c) && !cc.space(c))
    && !cc.word(' ') && cc.space(' ')
  }

  predicate IsPathChar(cc: Classes, c: char) {
    !IsQuote(c) && c != '<' && c != '>' && !cc.space(c)
  }

  const NAMES := ["href", "src", "action", "formaction"]

  predicate HasName(t: string, name: string) {
    |name| <= |t| && forall k | 0 <= k < |name| :: FoldsTo(t[k], name[k])
  }

  /** The length of the attribute name `t` begins with, or 0; the four names differ in their first letter. */
  function NameLength(t: string): nat {
    if HasName(t, NAMES[0]) then |NAMES[0]|
    else if HasName(t, NAMES[1]) then |NAMES[1]|
    else if HasName(t, NAMES[2]) then |NAMES[2]|
    else if HasName(t, NAMES[3]) then |NAMES[3]|
    else 0
  }

  /** The first position from `i` on that is no blank. */
  function SkipSpace(cc: Classes, t: string, i: nat): (j: nat)
    requires i <= |t|
    ensures i <= j <= |t| && (forall k | i <= k < j :: cc.space(t[k])) && (j < |t| ==> !cc.space(t[j]))
    decreases |t| - i
  {
    if i < |t| && cc.space(t[i]) then SkipSpace(cc, t, i + 1) else i
  }

  /** The first position from `i` on that cannot be part of a path. */
  function PathEnd(cc: Classes, t: string, i: nat): (j: nat)
    requires i <= |t|
    ensures i <= j <= |t| && (forall k | i <= k < j :: IsPathChar(cc, t[k])) && (j < |t| ==> !IsPathChar(cc, t[j]))
    decreases |t| - i
  {
    if i < |t| && IsPathChar(cc, t[i]) then PathEnd(cc, t, i + 1) else i
  }

  /** How far an attribute opens at the start of a text: name up to `name`, `=` at `equals`, opening quote
      at `quote`, with a path that starts with a single slash behind it. */
  datatype Opening = NoOpening | Opening(name: nat, equals: nat, quote: nat)

  /** A whole match: the opening, and the closing quote at `close`. */
  datatype Match = NoMatch | Match(name: nat, equals: nat, quote: nat, close: nat)

  function OpeningHere(cc: Classes, after: bool, t: string): (o: Opening)
    ensures o.Opening? ==> 0 < o.name <= o.equals < o.quote && o.quote + 1 < |t|
  {
    var n := NameLength(t);
    if after || n == 0 then NoOpening
    else
      var eq := SkipSpace(cc, t, n);
      if eq >= |t| || t[eq] != '=' then NoOpening
      else
        var q := SkipSpace(cc, t, eq + 1);
        if q + 1 >= |t| || !IsQuote(t[q]) || t[q + 1] != '/' || (q + 2 < |t| && t[q + 2] == '/') then NoOpening
        else Opening(n, eq, q)
  }

  /** Does the pattern match at the start of `t`, when the character before is a word character or not? */
  function MatchHere(cc: Classes, after: bool, t: string): (m: Match)
    ensures m.Match? ==> 0 < m.name <= m.equals < m.quote < m.close < |t|
  {
    var o := OpeningHere(cc, after, t);
    if o.NoOpening? then NoMatch
    else
      var e := PathEnd(cc, t, o.quote + 2);
      if e < |t| && IsQuote(t[e]) then Match(o.name, o.equals, o.quote, e) else NoMatch
  }

  function PathOf(t: string, m: Match): string
    requires m.Match? && m.quote < m.close <= |t|
  {
    t[m.quote + 1..m.close]
  }

  predicate StartsWith(s: string, p: string) {
    |p| <= |s| && s[..|p|] == p
  }

  /** Already under the prefix: left as it is. */
  predicate IsPrefixed(path: string, prefix: string) {
    path == prefix || StartsWith(path, prefix + "/")
  }

  function Replacement(prefix: string, t: string, m: Match): string
    requires m.Match? && m.name <= m.quote < m.close < |t|
  {
    if IsPrefixed(PathOf(t, m), prefix) then t[..m.close + 1]
    else t[..m.name] + ['=', t[m.quote]] + prefix + PathOf(t, m) + [t[m.close]]
  }

  /** How much of a text the scan moves past: a match, or one character where none starts. */
  function Width(cc: Classes, after: bool, t: string): (n: nat)
    requires t != ""
    ensures 1 <= n <= |t|
  {
    var m := MatchHere(cc, after, t);
    if m.NoMatch? then 1 else m.close + 1
  }

  /** What the scan writes for it. */
  function Piece(cc: Classes, prefix: string, after: bool, t: string): string
    requires t != ""
  {
    var m := MatchHere(cc, after, t);
    if m.NoMatch? then [t[0]] else Replacement(prefix, t, m)
  }

  /** The whole substitution, from a place where the character before is a word character or not. */
  function Substitute(cc: Classes, prefix: string, after: bool, t: string): string
    decreases |t|
  {
    if t == "" then ""
    else
      var n := Width(cc, after, t);
      Piece(cc, prefix, after, t) + Substitute(cc, prefix, cc.word(t[n - 1]), t[n..])
  }

  // ----- what a match is -----

  /** `t` begins with an attribute name of length `n`. */
  predicate NameAt(t: string, n: nat) {
    || (n == 4 && HasName(t, NAMES[0]))
    || (n == 3 && HasName(t, NAMES[1]))
    || (n == 6 && HasName(t, NAMES[2]))
    || (n == 10 && HasName(t, NAMES[3]))
  }

  lemma FirstLetter(t: string, name: string)
    requires name != "" && HasName(t, name)
    ensures t != "" && FoldsTo(t[0], name[0])
  {
  }

  lemma NameLengthIs(t: string, n: nat)
    ensures NameAt(t, n) <==> n > 0 && NameLength(t) == n
  {
    if HasName(t, NAMES[0]) { FirstLetter(t, NAMES[0]); }
    if HasName(t, NAMES[1]) { FirstLetter(t, NAMES[1]); }
    if HasName(t, NAMES[2]) { FirstLetter(t, NAMES[2]); }
    if HasName(t, NAMES[3]) { FirstLetter(t, NAMES[3]); }
  }

  /** Blanks, quotes, `=`, `/` and angle brackets are told apart. */
  lemma Punctuation(cc: Classes, c: char)
    requires Proper(cc) && (IsQuote(c) || c == '=' || c == '/' || c == '<' || c == '>')
    ensures !cc.space(c) && !cc.word(c) && (IsPathChar(cc, c) <==> c == '=' || c == '/')
  {
  }

  /** An opening, without the search for it. */
  ghost predicate Opens(cc: Classes, t: string, o: Opening) {
    && o.Opening? && NameAt(t, o.name) && o.name <= o.equals < o.quote && o.quote + 1 < |t|
    && (forall k | o.name <= k < o.equals :: cc.space(t[k])) && t[o.equals] == '='
    && (forall k | o.equals < k < o.quote :: cc.space(t[k])) && IsQuote(t[o.quote])
    && t[o.quote + 1] == '/' && (o.quote + 2 < |t| ==> t[o.quote + 2] != '/')
  }

  function OpeningOf(m: Match): Opening {
    if m.Match? then Opening(m.name, m.equals, m.quote) else NoOpening
  }

  /** A match, without the search for it. */
  ghost predicate Matches(cc: Classes, t: string, m: Match) {
    && m.Match? && Opens(cc, t, OpeningOf(m)) && m.quote + 2 <= m.close < |t|
    && (forall k | m.quote + 2 <= k < m.close :: IsPathChar(cc, t[k])) && IsQuote(t[m.close])
  }

  lemma {:induction false} SkipSpaceIs(cc: Classes, t: string, i: nat, j: nat)
    requires i <= j < |t| && (forall k | i <= k < j :: cc.space(t[k])) && !cc.space(t[j])
    ensures SkipSpace(cc, t, i) == j
    decreases j - i
  {
  }

  lemma {:induction false} PathEndIs(cc: Classes, t: string, i: nat, j: nat)
    requires i <= j < |t| && (forall k | i <= k < j :: IsPathChar(cc, t[k])) && !IsPathChar(cc, t[j])
    ensures PathEnd(cc, t, i) == j
    decreases j - i
  {
  }

  lemma FoundOpens(cc: Classes, after: bool, t: string)
    ensures var o := OpeningHere(cc, after, t); o.Opening? ==> !after && Opens(cc, t, o)
  {
  }

  lemma OpensFound(cc: Classes, t: string, o: Opening)
    requires Proper(cc) && Opens(cc, t, o)
    ensures OpeningHere(cc, false, t) == o
  {
    hide NameAt, NameLength, IsPathChar;
    NameLengthIs(t, o.name);
    Punctuation(cc, t[o.equals]);
    Punctuation(cc, t[o.quote]);
    SkipSpaceIs(cc, t, o.name, o.equals);
    SkipSpaceIs(cc, t, o.equals + 1, o.quote);
  }

  lemma FoundMatches(cc: Classes, after: bool, t: string)
    ensures var m := MatchHere(cc, after, t); m.Match? ==> !after && Matches(cc, t, m)
  {
    hide OpeningHere, Opens;
    FoundOpens(cc, after, t);
  }

  lemma MatchesFound(cc: Classes, t: string, m: Match)
    requires Proper(cc) && Matches(cc, t, m)
    ensures MatchHere(cc, false, t) == m
  {
    hide OpeningHere, Opens;
    OpensFound(cc, t, OpeningOf(m));
    Punctuation(cc, t[m.close]);
    PathEndIs(cc, t, m.quote + 2, m.close);
  }

  /** Only the matched text itself decides about a match. */
  lemma MatchDependsOnPrefix(cc: Classes, after: bool, t: string, u: string, n: nat)
    requires Proper(cc) && n <= |t| && n <= |u| && t[..n] == u[..n]
    requires MatchHere(cc, after, t).Match? && MatchHere(cc, after, t).close < n
    ensures MatchHere(cc, after, u) == MatchHere(cc, after, t)
  {
    hide MatchHere, NameAt, IsPathChar;
    var m := MatchHere(cc, after, t);
    FoundMatches(cc, after, t);
    SamePrefix(t, u, n);
    SameName(t, u, m.name);
    MatchesFound(cc, u, m);
  }

  /** Nor does more than the text up to the character behind the slash decide about an opening. */
  lemma OpeningDependsOnPrefix(cc: Classes, after: bool, t: string, u: string, n: nat)
    requires Proper(cc) && n <= |t| && n <= |u| && t[..n] == u[..n]
    requires OpeningHere(cc, after, t).Opening? && OpeningHere(cc, after, t).quote + 2 < n
    ensures OpeningHere(cc, after, u) == OpeningHere(cc, after, t)
  {
    hide OpeningHere, NameAt, IsPathChar;
    var o := OpeningHere(cc, after, t);
    FoundOpens(cc, after, t);
    SamePrefix(t, u, n);
    SameName(t, u, o.name);
    OpensFound(cc, u, o);
  }

  lemma SameName(t: string, u: string, n: nat)
    requires n <= |t| && n <= |u| && (forall k | 0 <= k < n :: t[k] == u[k]) && NameAt(t, n)
    ensures NameAt(u, n)
  {
  }

  lemma SamePrefix(t: string, u: string, n: nat)
    requires n <= |t| && n <= |u| && t[..n] == u[..n]
    ensures forall k | 0 <= k < n :: t[k] == u[k]
  {
  }

  // ----- documents on which the substitution is idempotent -----

  /** After normalisation: empty, or one leading slash and characters a path may have. */
  predicate GoodPrefix(cc: Classes, prefix: string) {
    prefix == "" || (|prefix| >= 2 && prefix[0] == '/' && prefix[1] != '/' && forall k | 0 <= k < |prefix| :: IsPathChar(cc, prefix[k]))
  }

  /** A match that is left alone, or that has no blanks around its `=`. */
  predicate TightHere(cc: Classes, prefix: string, after: bool, t: string) {
    var m := MatchHere(cc, after, t);
    m.NoMatch? || IsPrefixed(PathOf(t, m), prefix) || m.quote == m.name + 1
  }

  /** No attribute that gets rewritten has blanks around its `=`. */
  predicate Tight(cc: Classes, prefix: string, after: bool, t: string)
    decreases |t|
  {
    t == ""
    || var n := Width(cc, after, t); TightHere(cc, prefix, after, t) && Tight(cc, prefix, cc.word(t[n - 1]), t[n..])
  }

  predicate StableHere(cc: Classes, prefix: string, after: bool, t: string) {
    var m := MatchHere(cc, after, t);
    m.NoMatch? || IsPrefixed(PathOf(t, m), prefix)
  }

  /** Every attribute the scan finds is under the prefix already. */
  predicate Stable(cc: Classes, prefix: string, after: bool, t: string)
    decreases |t|
  {
    t == ""
    || var n := Width(cc, after, t); StableHere(cc, prefix, after, t) && Stable(cc, prefix, cc.word(t[n - 1]), t[n..])
  }

  lemma PieceIsFixed(cc: Classes, prefix: string, after: bool, t: string)
    requires t != "" && StableHere(cc, prefix, after, t)
    ensures Piece(cc, prefix, after, t) == t[..Width(cc, after, t)]
  {
  }

  lemma {:induction false} StableIsFixed(cc: Classes, prefix: string, after: bool, t: string)
    requires Stable(cc, prefix, after, t)
    ensures Substitute(cc, prefix, after, t) == t
    decreases |t|
  {
    hide Width, Piece, StableHere;
    if t != "" {
      var n := Width(cc, after, t);
      PieceIsFixed(cc, prefix, after, t);
      StableIsFixed(cc, prefix, cc.word(t[n - 1]), t[n..]);
      assert t == t[..n] + t[n..];
    }
  }

  lemma NameChars(t: string, n: nat)
    requires NameAt(t, n)
    ensures n <= |t| && forall k | 0 <= k < n :: IsNameLetter(t[k])
  {
    forall k | 0 <= k < n
      ensures IsNameLetter(t[k])
    {
      if n == 4 { LetterOf(t, NAMES[0], k); }
      else if n == 3 { LetterOf(t, NAMES[1], k); }
      else if n == 6 { LetterOf(t, NAMES[2], k); }
      else { LetterOf(t, NAMES[3], k); }
    }
  }

  lemma LetterOf(t: string, name: string, k: nat)
    requires HasName(t, name) && k < |name| && name[k] in "abcdefghijklmnopqrstuvwxyz"
    ensures IsNameLetter(t[k])
  {
  }

  /** The match a rewritten attribute is found as: the prefix has become part of its path. */
  function Rewritten(prefix: string, m: Match): Match
    requires m.Match? && m.quote < m.close
  {
    Match(m.name, m.name, m.name + 1, m.name + 1 + |prefix| + m.close - m.quote)
  }

  lemma SomePrefix(prefix: string, path: string)
    requires path != "" && path[0] == '/' && !IsPrefixed(path, prefix)
    ensures prefix != ""
  {
  }

  lemma RewrittenText(prefix: string, t: string, m: Match, rest: string)
    requires m.Match? && m.name <= m.quote < m.close < |t| && !IsPrefixed(PathOf(t, m), prefix)
    ensures var u, m' := Replacement(prefix, t, m) + rest, Rewritten(prefix, m);
            && m'.close < |u| && (forall k | 0 <= k < m.name :: u[k] == t[k])
            && u[m.name] == '=' && u[m'.quote] == t[m.quote] && u[m'.close] == t[m.close]
            && PathOf(u, m') == prefix + PathOf(t, m)
            && forall k | m'.quote < k < m'.close :: u[k] == (prefix + PathOf(t, m))[k - m'.quote - 1]
  {
    hide IsPrefixed;
  }

  lemma RewrittenMatches(cc: Classes, prefix: string, t: string, m: Match, rest: string)
    requires Proper(cc) && GoodPrefix(cc, prefix) && Matches(cc, t, m) && !IsPrefixed(PathOf(t, m), prefix)
    ensures var u := Replacement(prefix, t, m) + rest;
            Matches(cc, u, Rewritten(prefix, m)) && PathOf(u, Rewritten(prefix, m)) == prefix + PathOf(t, m)
  {
    hide NameAt, IsPathChar, Replacement, Proper, IsPrefixed;
    var u, m' := Replacement(prefix, t, m) + rest, Rewritten(prefix, m);
    var path := prefix + PathOf(t, m);
    RewrittenText(prefix, t, m, rest);
    SameName(t, u, m.name);
    SomePrefix(prefix, PathOf(t, m));
    assert u[m'.quote + 1] == path[0] == '/' && u[m'.quote + 2] == path[1] != '/';
    forall k | m'.quote + 2 <= k < m'.close
      ensures IsPathChar(cc, u[k])
    {
      PathChars(cc, prefix, t, m, k - m'.quote - 1);
    }
  }

  lemma PathChars(cc: Classes, prefix: string, t: string, m: Match, k: nat)
    requires Proper(cc) && GoodPrefix(cc, prefix) && Matches(cc, t, m) && k < |prefix + PathOf(t, m)|
    ensures IsPathChar(cc, (prefix + PathOf(t, m))[k])
  {
    hide NameAt;
    Punctuation(cc, '/');
    if k >= |prefix| {
      assert (prefix + PathOf(t, m))[k] == t[m.quote + 1 + k - |prefix|];
    }
  }

  lemma UnderPrefix(prefix: string, path: string)
    requires path != "" && path[0] == '/'
    ensures IsPrefixed(prefix + path, prefix)
  {
  }

  lemma StableUnfolds(cc: Classes, prefix: string, after: bool, t: string)
    requires t != ""
    ensures var n := Width(cc, after, t);
            Stable(cc, prefix, after, t) <==> StableHere(cc, prefix, after, t) && Stable(cc, prefix, cc.word(t[n - 1]), t[n..])
  {
    hide Width, StableHere;
  }

  lemma {:induction false} StableCons(cc: Classes, prefix: string, after: bool, p: string, v: string)
    requires p != "" && Width(cc, after, p + v) == |p| && StableHere(cc, prefix, after, p + v)
    requires Stable(cc, prefix, cc.word(p[|p| - 1]), v)
    ensures Stable(cc, prefix, after, p + v)
  {
    hide Width, StableHere;
    assert (p + v)[|p|..] == v;
  }

  /** What the scan wrote for one attribute is found again whole, and is under the prefix. */
  lemma PieceIsStable(cc: Classes, prefix: string, after: bool, t: string, rest: string)
    requires Proper(cc) && GoodPrefix(cc, prefix) && t != "" && MatchHere(cc, after, t).Match?
    ensures var p := Piece(cc, prefix, after, t);
            && p != "" && p[|p| - 1] == t[Width(cc, after, t) - 1]
            && Width(cc, after, p + rest) == |p| && StableHere(cc, prefix, after, p + rest)
  {
    hide MatchHere, IsPrefixed;
    var m := MatchHere(cc, after, t);
    var p := Piece(cc, prefix, after, t);
    FoundMatches(cc, after, t);
    if IsPrefixed(PathOf(t, m), prefix) {
      assert (p + rest)[..m.close + 1] == t[..m.close + 1];
      MatchDependsOnPrefix(cc, after, t, p + rest, m.close + 1);
      assert PathOf(p + rest, m) == PathOf(t, m);
    } else {
      RewrittenMatches(cc, prefix, t, m, rest);
      MatchesFound(cc, p + rest, Rewritten(prefix, m));
      UnderPrefix(prefix, PathOf(t, m));
    }
  }

  lemma {:induction false} EmptyIsStable(cc: Classes, prefix: string, after: bool)
    ensures Stable(cc, prefix, after, "")
  {
  }
}
