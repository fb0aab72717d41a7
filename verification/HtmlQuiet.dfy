/** When one pass is enough: exactly on quiet pages. A rewritten attribute may start inside an unclosed path only if
    that path is under the prefix already; and where its own path ends in an attribute name and `=`, its
    closing quote opens another attribute for the next pass, for which the same must hold. */
module HtmlQuiet {
  import opened Wrappers
  import opened HtmlRewrite
  import opened HtmlIdempotence

  /** How the path of an attribute that opens just before a text ends in what the first pass writes: not by a quote, or
      by a quote; the scan of the text goes on behind `behind`, after the pass wrote `tail` behind the quote. */
  datatype Close = Unclosed | ClosedAt(path: string, quote: char, behind: nat, tail: string)

  function PieceTail(prefix: string, t: string, m: Match): string
    requires m.Match? && m.quote < m.close < |t|
  {
    (if IsPrefixed(PathOf(t, m), prefix) then "" else prefix) + PathOf(t, m) + [t[m.close]]
  }

  function Closing(cc: Classes, prefix: string, after: bool, t: string): (c: Close)
    ensures c.ClosedAt? ==> 0 < c.behind <= |t|
    decreases |t|
  {
    if t == "" then Unclosed
    else
      var m := MatchHere(cc, after, t);
      if m.Match? then
        if IsPrefixed(PathOf(t, m), prefix) && m.quote != m.name + 1 then Unclosed
        else ClosedAt(t[..m.name] + "=", t[m.quote], m.close + 1, PieceTail(prefix, t, m))
      else if IsQuote(t[0]) then ClosedAt("", t[0], 1, "")
      else if !IsPathChar(cc, t[0]) then Unclosed
      else
        match Closing(cc, prefix, cc.word(t[0]), t[1..])
        case Unclosed => Unclosed
        case ClosedAt(path, quote, behind, tail) => ClosedAt([t[0]] + path, quote, behind + 1, tail)
  }

  predicate StartsPath(path: string) {
    path != "" && path[0] == '/' && (|path| > 1 ==> path[1] != '/')
  }

  /** An attribute name begins at `y` and runs up to `=` and the quote at the end. */
  predicate NameEndsAt(cc: Classes, tail: string, y: nat) {
    0 < y < |tail| - 2 && !cc.word(tail[y - 1]) && NameAt(tail[y..], |tail| - 2 - y) && tail[|tail| - 2] == '='
  }

  predicate OpensAtEnd(cc: Classes, tail: string) {
    exists y | 0 < y < |tail| - 2 :: NameEndsAt(cc, tail, y)
  }

  /** What the pass writes behind the name of the first rewritten attribute, from the path on. */
  function RewriteTail(cc: Classes, prefix: string, after: bool, t: string): string
    requires FirstRewrite(cc, prefix, after, t).Some?
  {
    prefix + RewritePath(cc, prefix, after, t) + [t[Behind(cc, prefix, after, t) - 1]]
  }

  /** Whatever is nested lies in a path that is under the prefix; the scan goes on behind what is rewritten there. */
  predicate Quiet(cc: Classes, prefix: string, after: bool, t: string)
    decreases |t|, 0
  {
    t == ""
    || if Nested(cc, prefix, after, t) then
         IsPrefixed(NewPath(cc, prefix, after, t), prefix)
         && QuietBehind(cc, prefix, RewriteTail(cc, prefix, after, t), t[Behind(cc, prefix, after, t)..])
       else
         var n := Width(cc, after, t);
         Quiet(cc, prefix, cc.word(t[n - 1]), t[n..])
  }

  /** Behind a rewritten path and its quote. */
  predicate QuietBehind(cc: Classes, prefix: string, tail: string, t: string)
    decreases |t|, 2
  {
    if OpensAtEnd(cc, tail) then QuietInside(cc, prefix, t) else Quiet(cc, prefix, false, t)
  }

  /** Inside an attribute that opened just before: if it gets a path and a closing quote, the path must be under
      the prefix. */
  predicate QuietInside(cc: Classes, prefix: string, t: string)
    decreases |t|, 1
  {
    var c := Closing(cc, prefix, false, t);
    if c.Unclosed? || !StartsPath(c.path) then Quiet(cc, prefix, false, t)
    else IsPrefixed(c.path, prefix) && QuietBehind(cc, prefix, c.tail, t[c.behind..])
  }

  // ----- a path and its closing quote, read as plain text -----

  /** Nothing, or a path and a quote. */
  ghost predicate IsTail(cc: Classes, tail: string) {
    tail == ""
    || (|tail| >= 2 && tail[0] == '/' && IsQuote(tail[|tail| - 1]) && forall k | 0 <= k < |tail| - 1 :: IsPathChar(cc, tail[k]))
  }

  /** No match starts in it, whatever follows, but at a name that ends it. */
  lemma NoneInside(cc: Classes, w: string, after: bool, rest: string, x: nat)
    requires Proper(cc) && IsTail(cc, w) && x < |w| && !NameEndsAt(cc, w, x)
    ensures MatchHere(cc, AfterWord(cc, after, w, x), (w + rest)[x..]).NoMatch?
  {
    hide MatchHere, NameAt, IsNameLetter;
    var s, b := (w + rest)[x..], AfterWord(cc, after, w, x);
    var m := MatchHere(cc, b, s);
    if m.Match? {
      FoundMatches(cc, b, s);
      NameChars(s, m.name);
      assert forall k | 0 <= k < |w| - x :: s[k] == w[x + k];
      LettersAreNoPunctuation(cc);
      InsidePathText(cc, w, s, x, m);
      assert s[0] == w[x];
      SameName(s, w[x..], m.name);
    }
  }

  /** Without blanks, and with the first quote at the end, the opening can only be a name, `=` and that quote. */
  lemma InsidePathText(cc: Classes, w: string, s: string, x: nat, m: Match)
    requires Proper(cc) && x < |w| && Matches(cc, s, m) && (forall k | 0 <= k < m.name :: IsNameLetter(s[k])) && |w| - x <= |s|
    requires (forall k | 0 <= k < |w| - 1 :: IsPathChar(cc, w[k])) && IsQuote(w[|w| - 1])
    requires forall k | 0 <= k < |w| - x :: s[k] == w[x + k]
    ensures m.equals == m.name && m.quote == m.name + 1 && x + m.quote == |w| - 1
  {
    hide NameAt, IsNameLetter, Proper;
    LettersAreNoPunctuation(cc);
    Punctuation(cc, w[|w| - 1]);
    Punctuation(cc, '=');
    var last := |w| - 1 - x;
    assert s[last] == w[|w| - 1];
    assert m.name <= last;
    forall k | 0 <= k < last
      ensures !cc.space(s[k]) && !IsQuote(s[k])
    {
      assert IsPathChar(cc, w[x + k]);
    }
    assert !cc.space(s[m.name]);
    assert m.equals == m.name && m.name < last;
    assert !cc.space(s[m.name + 1]);
    assert m.quote == m.name + 1;
  }

  lemma LettersAreNoPunctuation(cc: Classes)
    requires Proper(cc)
    ensures !IsNameLetter('"') && !IsNameLetter('\'') && !IsNameLetter('/')
  {
    hide IsNameLetter;
    Punctuation(cc, '"');
    Punctuation(cc, '\'');
    Punctuation(cc, '/');
  }

  /** So the next pass gets through it up to any place before such a name. */
  lemma {:induction false} TailIsPassed(cc: Classes, prefix: string, w: string, after: bool, rest: string, x: nat, to: nat)
    requires Proper(cc) && IsTail(cc, w) && x <= to <= |w| && forall y | x <= y < to :: !NameEndsAt(cc, w, y)
    ensures Stable(cc, prefix, AfterWord(cc, after, w, x), (w + rest)[x..]) <==> Stable(cc, prefix, AfterWord(cc, after, w, to), (w + rest)[to..])
    decreases |w| - x
  {
    hide MatchHere, Stable, Proper, IsTail, IsPrefixed, NameEndsAt;
    if x < to {
      NoneInside(cc, w, after, rest, x);
      StableUnfolds(cc, prefix, AfterWord(cc, after, w, x), (w + rest)[x..]);
      assert (w + rest)[x..][1..] == (w + rest)[x + 1..] && (w + rest)[x..][0] == w[x];
      TailIsPassed(cc, prefix, w, after, rest, x + 1, to);
    }
  }

  lemma {:induction false} PlainTailIsPassed(cc: Classes, prefix: string, w: string, rest: string)
    requires Proper(cc) && IsTail(cc, w) && !OpensAtEnd(cc, w)
    ensures Stable(cc, prefix, false, w + rest) <==> Stable(cc, prefix, false, rest)
  {
    hide Stable, NameEndsAt;
    forall y | 0 <= y < |w|
      ensures !NameEndsAt(cc, w, y)
    {
      if NameEndsAt(cc, w, y) { NameEndsInside(cc, w, y); }
    }
    TailIsPassed(cc, prefix, w, false, rest, 0, |w|);
    assert (w + rest)[0..] == w + rest && (w + rest)[|w|..] == rest;
    if w != "" {
      Punctuation(cc, w[|w| - 1]);
    }
  }

  /** An attribute name, `=` and a quote. */
  ghost predicate IsHead(head: string) {
    |head| > 2 && NameAt(head, |head| - 2) && head[|head| - 2] == '=' && IsQuote(head[|head| - 1])
  }

  lemma NameEndsInside(cc: Classes, w: string, y: nat)
    requires NameEndsAt(cc, w, y)
    ensures 0 < y < |w| - 2 && !cc.word(w[y - 1])
  {
  }

  lemma OnlyOneName(cc: Classes, w: string, x: nat, y: nat)
    requires Proper(cc) && NameEndsAt(cc, w, x) && NameEndsAt(cc, w, y)
    ensures x >= y
  {
    hide NameAt, Proper;
    if x < y {
      NameRunsOn(cc, w, x, y - 1);
    }
  }

  lemma NameRunsOn(cc: Classes, w: string, x: nat, k: nat)
    requires Proper(cc) && NameEndsAt(cc, w, x) && x <= k < |w| - 2
    ensures cc.word(w[k])
  {
    hide NameAt, IsNameLetter;
    NameChars(w[x..], |w| - 2 - x);
    assert w[k] == w[x..][k - x];
    NameLettersArePath(cc, w[k]);
  }

  /** The name at the end of a path, as the next pass comes to it. */
  lemma NamedTailIsPassed(cc: Classes, prefix: string, w: string, rest: string) returns (head: string)
    requires Proper(cc) && IsTail(cc, w) && OpensAtEnd(cc, w)
    ensures IsHead(head) && (Stable(cc, prefix, false, w + rest) <==> Stable(cc, prefix, false, head + rest))
  {
    hide Stable, NameAt, NameEndsAt, Proper;
    var y :| 0 < y < |w| - 2 && NameEndsAt(cc, w, y);
    head := w[y..];
    forall x | 0 <= x < y
      ensures !NameEndsAt(cc, w, x)
    {
      if NameEndsAt(cc, w, x) { OnlyOneName(cc, w, x, y); }
    }
    TailIsPassed(cc, prefix, w, false, rest, 0, y);
    assert (w + rest)[0..] == w + rest && (w + rest)[y..] == head + rest;
    TailHead(cc, w, y);
  }

  lemma TailHead(cc: Classes, w: string, y: nat)
    requires IsTail(cc, w) && NameEndsAt(cc, w, y)
    ensures IsHead(w[y..]) && !AfterWord(cc, false, w, y)
  {
    hide NameAt;
  }

  // ----- an attribute that opens just before a text -----

  lemma HeadMatch(cc: Classes, head: string, u: string) returns (n: nat)
    requires Proper(cc) && IsHead(head)
    ensures n == |head| - 2
    ensures var m := MatchHere(cc, false, head + u);
            m.Match? ==> m == Match(n, n, n + 1, m.close) && n + 3 <= m.close && u != "" && u[0] == '/' && (|u| > 1 ==> u[1] != '/')
                         && IsQuote(u[m.close - |head|]) && forall k | 0 <= k < m.close - |head| :: IsPathChar(cc, u[k])
  {
    hide MatchHere, NameAt, NameLength, IsPathChar, Proper;
    n := |head| - 2;
    var t := head + u;
    var m := MatchHere(cc, false, t);
    SameName(head, t, n);
    NameLengthIs(t, n);
    Punctuation(cc, '=');
    Punctuation(cc, '/');
    Punctuation(cc, head[n + 1]);
    if m.Match? {
      FoundMatches(cc, false, t);
      MatchKnowsName(cc, false, t);
      assert t[n] == '=' && t[n + 1] == head[n + 1];
      assert m.equals == n;
      assert m.quote == n + 1;
      assert t[n + 2] == u[0];
      forall k | 0 <= k < m.close - |head|
        ensures IsPathChar(cc, u[k])
      {
        assert t[|head| + k] == u[k];
      }
    }
  }

  /** The output behind the opening: path, quote, and what comes after. */
  lemma HeadIsClosed(cc: Classes, head: string, path: string, quote: char, rest: string)
    requires Proper(cc) && IsHead(head) && IsQuote(quote) && forall k | 0 <= k < |path| :: IsPathChar(cc, path[k])
    ensures var t := head + (path + [quote] + rest);
            var m := MatchHere(cc, false, t);
            && (m.Match? <==> StartsPath(path))
            && (m.Match? ==> PathOf(t, m) == path && t[m.close + 1..] == rest && t[m.close] == quote)
  {
    hide MatchHere, NameAt, NameLength, IsPathChar, Proper;
    var u := path + [quote] + rest;
    var t := head + u;
    var n := HeadMatch(cc, head, u);
    Punctuation(cc, quote);
    assert u[|path|] == quote;
    var m := MatchHere(cc, false, t);
    if m.Match? {
      FirstQuote(cc, path, quote, rest, m.close - |head|);
      HeadText(head, path, quote, rest);
    } else if StartsPath(path) {
      HeadOpens(cc, head, path, quote, rest);
      MatchesFound(cc, t, Match(n, n, n + 1, n + 2 + |path|));
    }
  }

  /** The quote that closes the path is the first character that is not part of one. */
  lemma FirstQuote(cc: Classes, path: string, quote: char, rest: string, k: nat)
    requires IsQuote(quote) && forall i | 0 <= i < |path| :: IsPathChar(cc, path[i])
    requires var u := path + [quote] + rest; k < |u| && IsQuote(u[k]) && forall i | 0 <= i < k :: IsPathChar(cc, u[i])
    ensures k == |path|
  {
    var u := path + [quote] + rest;
    assert u[|path|] == quote && forall i | 0 <= i < |path| :: u[i] == path[i];
  }

  lemma HeadText(head: string, path: string, quote: char, rest: string)
    ensures var t, close := head + (path + [quote] + rest), |head| + |path|;
            t[|head|..close] == path && t[close] == quote && t[close + 1..] == rest
  {
  }

  lemma HeadOpens(cc: Classes, head: string, path: string, quote: char, rest: string)
    requires IsHead(head) && IsQuote(quote) && StartsPath(path) && forall k | 0 <= k < |path| :: IsPathChar(cc, path[k])
    ensures var n := |head| - 2; Matches(cc, head + (path + [quote] + rest), Match(n, n, n + 1, n + 2 + |path|))
  {
    hide NameAt, IsPathChar;
    var t, n := head + (path + [quote] + rest), |head| - 2;
    SameName(head, t, n);
    HeadText(head, path, quote, rest);
    forall k | n + 3 <= k < n + 2 + |path|
      ensures IsPathChar(cc, t[k])
    {
      assert t[k] == path[k - |head|];
    }
  }

  /** The text begins with path characters that no quote ends. */
  ghost predicate Breaks(cc: Classes, u: string) {
    exists e | 0 <= e <= |u| :: BreaksAt(cc, u, e)
  }

  ghost predicate BreaksAt(cc: Classes, u: string, e: nat)
    requires e <= |u|
  {
    (forall k | 0 <= k < e :: IsPathChar(cc, u[k])) && (e < |u| ==> !IsQuote(u[e]) && !IsPathChar(cc, u[e]))
  }

  lemma HeadIsOpen(cc: Classes, head: string, u: string)
    requires Proper(cc) && IsHead(head) && Breaks(cc, u)
    ensures MatchHere(cc, false, head + u).NoMatch?
  {
    hide MatchHere, NameAt, Proper;
    var n := HeadMatch(cc, head, u);
    var m := MatchHere(cc, false, head + u);
    if m.Match? {
      var e :| 0 <= e <= |u| && BreaksAt(cc, u, e);
      assert m.close - |head| < |u|;
      QuoteIsNoPath(cc, u[m.close - |head|]);
    }
  }

  lemma QuoteIsNoPath(cc: Classes, c: char)
    requires IsQuote(c)
    ensures !IsPathChar(cc, c)
  {
  }

  /** Where the opening comes to nothing, the next pass goes through it. */
  lemma {:induction false} HeadIsPassed(cc: Classes, prefix: string, head: string, u: string, x: nat)
    requires Proper(cc) && IsHead(head) && 0 < x <= |head|
    ensures Stable(cc, prefix, AfterWord(cc, false, head, x), (head + u)[x..]) <==> Stable(cc, prefix, false, u)
    decreases |head| - x
  {
    hide MatchHere, Stable, Proper, NameAt, IsPrefixed;
    if x == |head| {
      assert (head + u)[x..] == u;
      Punctuation(cc, head[x - 1]);
    } else {
      NoneInHead(cc, head, u, x);
      StableUnfolds(cc, prefix, AfterWord(cc, false, head, x), (head + u)[x..]);
      assert (head + u)[x..][1..] == (head + u)[x + 1..] && (head + u)[x..][0] == head[x];
      HeadIsPassed(cc, prefix, head, u, x + 1);
    }
  }

  lemma NoLetterNoMatch(cc: Classes, after: bool, t: string)
    requires t != "" && !IsNameLetter(t[0])
    ensures MatchHere(cc, after, t).NoMatch?
  {
    hide MatchHere, NameAt, IsNameLetter;
    var m := MatchHere(cc, after, t);
    if m.Match? {
      FoundMatches(cc, after, t);
      NameChars(t, m.name);
    }
  }

  lemma NoneInHead(cc: Classes, head: string, u: string, x: nat)
    requires Proper(cc) && IsHead(head) && 0 < x < |head|
    ensures MatchHere(cc, AfterWord(cc, false, head, x), (head + u)[x..]).NoMatch?
  {
    hide MatchHere, NameAt, IsNameLetter;
    var s := (head + u)[x..];
    assert s[0] == head[x];
    LettersAreNoPunctuation(cc);
    if x <= |head| - 2 {
      NameChars(head, |head| - 2);
      NameLettersArePath(cc, head[x - 1]);
      FoundMatches(cc, true, s);
    } else {
      NoLetterNoMatch(cc, AfterWord(cc, false, head, x), s);
    }
  }

  lemma {:induction false} OpenHeadIsPassed(cc: Classes, prefix: string, head: string, u: string)
    requires Proper(cc) && IsHead(head) && MatchHere(cc, false, head + u).NoMatch?
    ensures Stable(cc, prefix, false, head + u) <==> Stable(cc, prefix, false, u)
  {
    hide MatchHere, Stable, Proper, NameAt, IsPrefixed;
    StableUnfolds(cc, prefix, false, head + u);
    assert (head + u)[1..] == (head + u)[1..] && (head + u)[0] == head[0];
    HeadIsPassed(cc, prefix, head, u, 1);
  }

  // ----- how its path ends -----

  ghost predicate Closes(cc: Classes, prefix: string, t: string, u: string, c: Close)
    requires c.ClosedAt? ==> c.behind <= |t|
  {
    match c
    case Unclosed => Breaks(cc, u)
    case ClosedAt(path, quote, behind, tail) =>
      && u == path + [quote] + (tail + Substitute(cc, prefix, false, t[behind..]))
      && IsQuote(quote) && IsTail(cc, tail) && forall k | 0 <= k < |path| :: IsPathChar(cc, path[k])
  }

  lemma BreaksFurther(cc: Classes, c: char, u: string)
    requires Breaks(cc, u) && IsPathChar(cc, c)
    ensures Breaks(cc, [c] + u)
  {
    hide IsPathChar;
    var e :| 0 <= e <= |u| && BreaksAt(cc, u, e);
    assert BreaksAt(cc, [c] + u, e + 1);
  }

  lemma {:induction false} PlainCloses(cc: Classes, prefix: string, t: string, u: string)
    requires Proper(cc) && t != "" && u == [t[0]] + Substitute(cc, prefix, cc.word(t[0]), t[1..])
    ensures IsQuote(t[0]) ==> Closes(cc, prefix, t, u, ClosedAt("", t[0], 1, ""))
    ensures !IsQuote(t[0]) && !IsPathChar(cc, t[0]) ==> Closes(cc, prefix, t, u, Unclosed)
  {
    hide IsPathChar, Substitute, Proper;
    if IsQuote(t[0]) {
      Punctuation(cc, t[0]);
      assert u == "" + [t[0]] + ("" + Substitute(cc, prefix, false, t[1..]));
    } else if !IsPathChar(cc, t[0]) {
      assert BreaksAt(cc, u, 0);
    }
  }

  lemma FurtherCloses(cc: Classes, prefix: string, t: string, rest: string, c: Close)
    requires t != "" && IsPathChar(cc, t[0]) && (c.ClosedAt? ==> c.behind < |t|) && Closes(cc, prefix, t[1..], rest, c)
    ensures Closes(cc, prefix, t, [t[0]] + rest,
                   if c.Unclosed? then Unclosed else ClosedAt([t[0]] + c.path, c.quote, c.behind + 1, c.tail))
  {
    hide IsPathChar, Substitute;
    match c
    case Unclosed => BreaksFurther(cc, t[0], rest);
    case ClosedAt(path, quote, behind, tail) =>
      assert t[1..][behind..] == t[behind + 1..];
      assert [t[0]] + (path + [quote] + (tail + Substitute(cc, prefix, false, t[behind + 1..])))
          == ([t[0]] + path) + [quote] + (tail + Substitute(cc, prefix, false, t[behind + 1..]));
  }

  lemma BlankCloses(cc: Classes, t: string, m: Match, rest: string)
    requires Proper(cc) && Matches(cc, t, m) && m.quote != m.name + 1
    ensures Breaks(cc, t[..m.close + 1] + rest)
  {
    hide NameAt, IsNameLetter;
    var u := t[..m.close + 1] + rest;
    assert forall k | 0 <= k <= m.close :: u[k] == t[k];
    NameChars(t, m.name);
    Punctuation(cc, '=');
    forall k | 0 <= k < m.name
      ensures IsPathChar(cc, u[k])
    {
      NameLettersArePath(cc, u[k]);
    }
    assert BreaksAt(cc, u, if m.equals == m.name then m.name + 1 else m.name);
  }

  lemma {:induction false} MatchCloses(cc: Classes, prefix: string, t: string, m: Match, u: string)
    requires Proper(cc) && GoodPrefix(cc, prefix) && Matches(cc, t, m)
    requires u == Replacement(prefix, t, m) + Substitute(cc, prefix, false, t[m.close + 1..])
    ensures Closes(cc, prefix, t, u,
                   if IsPrefixed(PathOf(t, m), prefix) && m.quote != m.name + 1 then Unclosed
                   else ClosedAt(t[..m.name] + "=", t[m.quote], m.close + 1, PieceTail(prefix, t, m)))
  {
    hide NameAt, IsNameLetter, Substitute, IsPrefixed, GoodPrefix, Proper, IsPathChar, Breaks, Opens, Replacement, PieceTail, IsTail;
    var rest := Substitute(cc, prefix, false, t[m.close + 1..]);
    if IsPrefixed(PathOf(t, m), prefix) && m.quote != m.name + 1 {
      BlankCloses(cc, t, m, rest);
      PrefixedStays(cc, prefix, t, m);
    } else {
      TailOfMatch(cc, prefix, t, m);
      HeadOfMatch(cc, prefix, t, m, rest);
    }
  }

  lemma PrefixedStays(cc: Classes, prefix: string, t: string, m: Match)
    requires Matches(cc, t, m) && IsPrefixed(PathOf(t, m), prefix)
    ensures Replacement(prefix, t, m) == t[..m.close + 1]
  {
  }

  lemma TailOfMatch(cc: Classes, prefix: string, t: string, m: Match)
    requires Proper(cc) && GoodPrefix(cc, prefix) && Matches(cc, t, m)
    ensures IsTail(cc, PieceTail(prefix, t, m))
  {
    hide NameAt, IsPathChar, IsPrefixed, Proper;
    var path := PathOf(t, m);
    assert path[0] == '/';
    forall k | 0 <= k < |prefix + path|
      ensures IsPathChar(cc, (prefix + path)[k])
    {
      PathChars(cc, prefix, t, m, k);
    }
    assert forall k | 0 <= k < |path| :: path[k] == (prefix + path)[|prefix| + k];
  }

  lemma HeadOfMatch(cc: Classes, prefix: string, t: string, m: Match, rest: string)
    requires Proper(cc) && Matches(cc, t, m) && (IsPrefixed(PathOf(t, m), prefix) ==> m.quote == m.name + 1)
    ensures var path := t[..m.name] + "=";
            && Replacement(prefix, t, m) + rest == path + [t[m.quote]] + (PieceTail(prefix, t, m) + rest)
            && IsQuote(t[m.quote]) && forall k | 0 <= k < |path| :: IsPathChar(cc, path[k])
  {
    hide NameAt, IsNameLetter, IsPathChar, IsPrefixed, Proper;
    NameChars(t, m.name);
    Punctuation(cc, '=');
    forall k | 0 <= k < m.name
      ensures IsPathChar(cc, t[k])
    {
      NameLettersArePath(cc, t[k]);
    }
    HeadAndTail(prefix, t, m, rest);
  }

  lemma HeadAndTail(prefix: string, t: string, m: Match, rest: string)
    requires m.Match? && m.name <= m.equals < m.quote < m.close < |t|
    requires IsPrefixed(PathOf(t, m), prefix) ==> m.quote == m.name + 1 && t[m.name] == '='
    ensures Replacement(prefix, t, m) + rest == (t[..m.name] + "=") + [t[m.quote]] + (PieceTail(prefix, t, m) + rest)
  {
    hide IsPrefixed;
    if IsPrefixed(PathOf(t, m), prefix) {
      assert t[..m.close + 1] == (t[..m.name] + "=") + [t[m.quote]] + PieceTail(prefix, t, m);
    } else {
      assert Replacement(prefix, t, m) == (t[..m.name] + "=") + [t[m.quote]] + PieceTail(prefix, t, m);
    }
  }

  lemma {:induction false} ClosingIs(cc: Classes, prefix: string, after: bool, t: string)
    requires Proper(cc) && GoodPrefix(cc, prefix)
    ensures Closes(cc, prefix, t, Substitute(cc, prefix, after, t), Closing(cc, prefix, after, t))
    decreases |t|
  {
    hide MatchHere, Matches, Proper, GoodPrefix, IsPrefixed, IsPathChar, Closes, Replacement, PieceTail;
    if t == "" {
      NothingCloses(cc, prefix, after);
    } else {
      var m := MatchHere(cc, after, t);
      if m.Match? {
        FoundMatches(cc, after, t);
        ClosingQuote(cc, t, m);
        MatchCloses(cc, prefix, t, m, Substitute(cc, prefix, after, t));
      } else {
        PlainCloses(cc, prefix, t, Substitute(cc, prefix, after, t));
        if !IsQuote(t[0]) && IsPathChar(cc, t[0]) {
          ClosingIs(cc, prefix, cc.word(t[0]), t[1..]);
          FurtherCloses(cc, prefix, t, Substitute(cc, prefix, cc.word(t[0]), t[1..]), Closing(cc, prefix, cc.word(t[0]), t[1..]));
        }
      }
    }
  }

  lemma ClosingQuote(cc: Classes, t: string, m: Match)
    requires Proper(cc) && Matches(cc, t, m)
    ensures !cc.word(t[m.close])
  {
    hide NameAt;
    Punctuation(cc, t[m.close]);
  }

  lemma {:induction false} NothingCloses(cc: Classes, prefix: string, after: bool)
    ensures Closes(cc, prefix, "", Substitute(cc, prefix, after, ""), Closing(cc, prefix, after, ""))
  {
    assert BreaksAt(cc, "", 0);
  }

  // ----- one pass is enough exactly on quiet pages -----

  /** After one pass nothing is left to rewrite exactly when the page is quiet. */
  lemma {:induction false} StableExactlyWhenQuiet(cc: Classes, prefix: string, after: bool, t: string)
    requires Proper(cc) && GoodPrefix(cc, prefix)
    ensures Stable(cc, prefix, after, Substitute(cc, prefix, after, t)) <==> Quiet(cc, prefix, after, t)
    decreases |t|, 0
  {
    hide Width, Piece, Stable, StableHere, Nested, NewPath, Proper, GoodPrefix, IsPrefixed, Behind, QuietBehind, RewriteTail,
      RewritePath, FirstRewrite, Remainder;
    if t == "" {
      EmptyIsStable(cc, prefix, after);
    } else if !Nested(cc, prefix, after, t) {
      var n := Width(cc, after, t);
      StableExactlyWhenQuiet(cc, prefix, cc.word(t[n - 1]), t[n..]);
      PieceIsReadAgain(cc, prefix, after, t);
      StableConsExactly(cc, prefix, after, Piece(cc, prefix, after, t), Substitute(cc, prefix, cc.word(t[n - 1]), t[n..]));
    } else if IsPrefixed(NewPath(cc, prefix, after, t), prefix) {
      NestedHasRewrite(cc, prefix, after, t);
      var b := Behind(cc, prefix, after, t);
      NestedIsPassed(cc, prefix, after, t);
      BehindExactly(cc, prefix, RewriteTail(cc, prefix, after, t), t[b..]);
    } else {
      NestedIsUnstable(cc, prefix, after, t);
    }
  }

  /** The same behind a rewritten path. */
  lemma {:induction false} BehindExactly(cc: Classes, prefix: string, tail: string, t: string)
    requires Proper(cc) && GoodPrefix(cc, prefix) && IsTail(cc, tail)
    ensures Stable(cc, prefix, false, tail + Substitute(cc, prefix, false, t)) <==> QuietBehind(cc, prefix, tail, t)
    decreases |t|, 2
  {
    hide Stable, Proper, GoodPrefix, Substitute, Quiet, QuietInside, OpensAtEnd, IsTail, IsHead;
    var u := Substitute(cc, prefix, false, t);
    if OpensAtEnd(cc, tail) {
      var head := NamedTailIsPassed(cc, prefix, tail, u);
      InsideExactly(cc, prefix, head, t);
    } else {
      PlainTailIsPassed(cc, prefix, tail, u);
      StableExactlyWhenQuiet(cc, prefix, false, t);
    }
  }

  /** And inside an attribute that opened just before. */
  lemma {:induction false} InsideExactly(cc: Classes, prefix: string, head: string, t: string)
    requires Proper(cc) && GoodPrefix(cc, prefix) && IsHead(head)
    ensures Stable(cc, prefix, false, head + Substitute(cc, prefix, false, t)) <==> QuietInside(cc, prefix, t)
    decreases |t|, 1
  {
    hide MatchHere, Stable, Proper, GoodPrefix, Substitute, Quiet, QuietBehind, Closing, IsTail, IsHead, Breaks, StartsPath, IsPathChar,
      IsPrefixed;
    var u := Substitute(cc, prefix, false, t);
    ClosingIs(cc, prefix, false, t);
    match Closing(cc, prefix, false, t)
    case Unclosed =>
      HeadIsOpen(cc, head, u);
      OpenHeadIsPassed(cc, prefix, head, u);
      StableExactlyWhenQuiet(cc, prefix, false, t);
    case ClosedAt(path, quote, behind, tail) =>
      var rest := tail + Substitute(cc, prefix, false, t[behind..]);
      HeadIsClosed(cc, head, path, quote, rest);
      if StartsPath(path) {
        BehindExactly(cc, prefix, tail, t[behind..]);
        ClosedHeadIsPassed(cc, prefix, head, path, quote, rest);
      } else {
        OpenHeadIsPassed(cc, prefix, head, u);
        StableExactlyWhenQuiet(cc, prefix, false, t);
      }
  }

  lemma {:induction false} ClosedHeadIsPassed(cc: Classes, prefix: string, head: string, path: string, quote: char, rest: string)
    requires Proper(cc) && IsHead(head) && IsQuote(quote) && StartsPath(path) && forall k | 0 <= k < |path| :: IsPathChar(cc, path[k])
    ensures Stable(cc, prefix, false, head + (path + [quote] + rest)) <==> IsPrefixed(path, prefix) && Stable(cc, prefix, false, rest)
  {
    hide MatchHere, Stable, Proper, IsHead, StartsPath, IsPathChar, IsPrefixed;
    var t := head + (path + [quote] + rest);
    HeadIsClosed(cc, head, path, quote, rest);
    StableUnfolds(cc, prefix, false, t);
    Punctuation(cc, quote);
  }

  /** An attribute that the first pass closed is passed if it is under the prefix; the next pass goes on behind its
      quote, with the path written there. */
  lemma {:induction false} NestedIsPassed(cc: Classes, prefix: string, after: bool, t: string)
    requires Proper(cc) && GoodPrefix(cc, prefix) && t != "" && Nested(cc, prefix, after, t)
    requires IsPrefixed(NewPath(cc, prefix, after, t), prefix)
    ensures var tail, b := RewriteTail(cc, prefix, after, t), Behind(cc, prefix, after, t);
            && IsTail(cc, tail)
            && (Stable(cc, prefix, after, Substitute(cc, prefix, after, t))
                <==> Stable(cc, prefix, false, tail + Substitute(cc, prefix, false, t[b..])))
  {
    hide MatchHere, Substitute, Stable, FirstRewrite, IsPrefixed, Proper, GoodPrefix, Nested, NewPath, NameEnd,
      RewritePath, IsPathChar, Behind;
    NestedHasRewrite(cc, prefix, after, t);
    var v, b := Substitute(cc, prefix, after, t), Behind(cc, prefix, after, t);
    NestedCloses(cc, prefix, after, t);
    NestedRemainder(cc, prefix, after, t);
    StableUnfolds(cc, prefix, after, v);
    Punctuation(cc, t[b - 1]);
    PathIsTail(cc, prefix, RewritePath(cc, prefix, after, t), t[b - 1]);
  }

  lemma PathIsTail(cc: Classes, prefix: string, path: string, quote: char)
    requires GoodPrefix(cc, prefix) && path != "" && path[0] == '/' && IsQuote(quote)
    requires forall k | 0 <= k < |prefix + path| :: IsPathChar(cc, (prefix + path)[k])
    ensures IsTail(cc, prefix + path + [quote])
  {
    hide IsPathChar;
    var w := prefix + path + [quote];
    assert forall k | 0 <= k < |w| - 1 :: w[k] == (prefix + path)[k];
  }

  lemma {:induction false} CalmIsQuiet(cc: Classes, prefix: string, after: bool, t: string)
    requires Calm(cc, prefix, after, t)
    ensures Quiet(cc, prefix, after, t)
    decreases |t|
  {
    hide Width, Nested, NewPath, IsPrefixed, QuietBehind;
    if t != "" {
      var n := Width(cc, after, t);
      CalmIsQuiet(cc, prefix, cc.word(t[n - 1]), t[n..]);
    }
  }

  /** The second pass changes nothing exactly when the page is quiet. */
  lemma {:induction false} SecondPassChangesNothingExactly(cc: Classes, prefix: string, after: bool, t: string)
    requires Proper(cc) && GoodPrefix(cc, prefix)
    ensures var u := Substitute(cc, prefix, after, t); Substitute(cc, prefix, after, u) == u <==> Quiet(cc, prefix, after, t)
  {
    hide Substitute, Stable, Quiet, Proper, GoodPrefix;
    var u := Substitute(cc, prefix, after, t);
    StableExactlyWhenQuiet(cc, prefix, after, t);
    if Stable(cc, prefix, after, u) {
      StableIsFixed(cc, prefix, after, u);
    } else if Substitute(cc, prefix, after, u) == u {
      FixedIsStable(cc, prefix, after, u);
    }
  }
}
