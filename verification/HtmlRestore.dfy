/** Taking the inserted prefixes out of a page again. */
module HtmlRestore {
  import opened Wrappers
  import opened HtmlRewrite

  /** How many characters of the result stand between one inserted prefix and the next. */
  function Gaps(cc: Classes, prefix: string, after: bool, t: string): seq<nat>
    decreases |t|
  {
    if t == "" then []
    else
      var n := Width(cc, after, t);
      var rest := Gaps(cc, prefix, cc.word(t[n - 1]), t[n..]);
      if StableHere(cc, prefix, after, t) then Later(n, rest)
      else var m := MatchHere(cc, after, t); [m.name + 2] + Later(n - m.quote - 1, rest)
  }

  /** What is written for a piece, but for the prefix. */
  function TightPiece(cc: Classes, prefix: string, after: bool, t: string): string
    requires t != ""
  {
    var m, n := MatchHere(cc, after, t), Width(cc, after, t);
    if StableHere(cc, prefix, after, t) then t[..n] else t[..m.name] + ['=', t[m.quote]] + t[m.quote + 1..n]
  }

  /** The page without the blanks around the `=` of the attributes that are rewritten. */
  function Tightened(cc: Classes, prefix: string, after: bool, t: string): string
    decreases |t|
  {
    if t == "" then ""
    else
      var n := Width(cc, after, t);
      TightPiece(cc, prefix, after, t) + Tightened(cc, prefix, cc.word(t[n - 1]), t[n..])
  }

  function Later(n: nat, gaps: seq<nat>): seq<nat> {
    if gaps == [] then [] else [gaps[0] + n] + gaps[1..]
  }

  /** Deletes a prefix after each gap; fails where the text there is not the prefix. */
  function Restore(prefix: string, gaps: seq<nat>, u: string): Option<string>
    decreases |gaps|
  {
    if gaps == [] then Some(u)
    else if gaps[0] <= |u| && StartsWith(u[gaps[0]..], prefix) then
      match Restore(prefix, gaps[1..], u[gaps[0] + |prefix|..])
      case Some(t) => Some(u[..gaps[0]] + t)
      case None => None
    else None
  }

  lemma Shifted(p: string, u: string, g: nat, n: nat, rest: string)
    requires g + n <= |u|
    ensures (p + u)[g + |p|..] == u[g..] && (p + u)[g + |p| + n..] == u[g + n..]
    ensures (p + u)[..g + |p|] + rest == p + (u[..g] + rest)
  {
    DropBehind(p, u, g);
    DropBehind(p, u, g + n);
    assert (p + u[..g]) + rest == p + (u[..g] + rest);
  }

  lemma DropBehind(p: string, u: string, k: nat)
    requires k <= |u|
    ensures (p + u)[|p| + k..] == u[k..] && (p + u)[..|p| + k] == p + u[..k]
  {
  }

  lemma {:induction false} RestoreLater(prefix: string, gaps: seq<nat>, p: string, u: string, t: string)
    requires Restore(prefix, gaps, u) == Some(t)
    ensures Restore(prefix, Later(|p|, gaps), p + u) == Some(p + t)
  {
    if gaps != [] {
      var rest := Restore(prefix, gaps[1..], u[gaps[0] + |prefix|..]).value;
      Shifted(p, u, gaps[0], |prefix|, rest);
    }
  }

  lemma {:induction false} RestoreHere(prefix: string, gaps: seq<nat>, p: string, u: string, t: string)
    requires Restore(prefix, gaps, u) == Some(t)
    ensures Restore(prefix, [|p|] + gaps, p + prefix + u) == Some(p + t)
  {
    var v := p + prefix + u;
    assert ([|p|] + gaps)[1..] == gaps;
    assert v[|p|..] == prefix + u && (prefix + u)[..|prefix|] == prefix;
    assert v[|p| + |prefix|..] == u && v[..|p|] == p;
  }

  lemma {:induction false} RestoreAround(prefix: string, gaps: seq<nat>, p: string, q: string, u: string, t: string)
    requires Restore(prefix, gaps, u) == Some(t)
    ensures Restore(prefix, [|p|] + Later(|q|, gaps), (p + prefix + q) + u) == Some((p + q) + t)
  {
    hide Restore, Later;
    RestoreLater(prefix, gaps, q, u, t);
    RestoreHere(prefix, Later(|q|, gaps), p, q + u, q + t);
    assert p + prefix + (q + u) == (p + prefix + q) + u;
    assert p + (q + t) == (p + q) + t;
  }

  /** Deleting exactly the inserted prefixes gives the document back, but for those blanks. */
  lemma {:induction false} RestoreTightens(cc: Classes, prefix: string, after: bool, t: string)
    ensures Restore(prefix, Gaps(cc, prefix, after, t), Substitute(cc, prefix, after, t)) == Some(Tightened(cc, prefix, after, t))
    decreases |t|
  {
    hide Width, Piece, StableHere, Restore, Gaps, Substitute, TightPiece;
    if t == "" {
      RestoreNothing(cc, prefix, after);
    } else {
      var n := Width(cc, after, t);
      RestoreTightens(cc, prefix, cc.word(t[n - 1]), t[n..]);
      RestoreOneMore(cc, prefix, after, t, Tightened(cc, prefix, cc.word(t[n - 1]), t[n..]));
    }
  }

  lemma OneMorePiece(cc: Classes, prefix: string, after: bool, t: string)
    requires t != ""
    ensures var n := Width(cc, after, t);
            var b := cc.word(t[n - 1]);
            && Substitute(cc, prefix, after, t) == Piece(cc, prefix, after, t) + Substitute(cc, prefix, b, t[n..])
            && (StableHere(cc, prefix, after, t) ==> Gaps(cc, prefix, after, t) == Later(n, Gaps(cc, prefix, b, t[n..])))
            && (!StableHere(cc, prefix, after, t) ==>
                  var m := MatchHere(cc, after, t);
                  && m.Match? && m.name < m.quote < n
                  && Gaps(cc, prefix, after, t) == [m.name + 2] + Later(n - m.quote - 1, Gaps(cc, prefix, b, t[n..])))
  {
    hide MatchHere, Width, Piece, StableHere, Later;
    QuoteIsInside(cc, prefix, after, t);
  }

  lemma QuoteIsInside(cc: Classes, prefix: string, after: bool, t: string)
    requires t != ""
    ensures !StableHere(cc, prefix, after, t) ==>
              var m := MatchHere(cc, after, t); m.Match? && m.name < m.quote < Width(cc, after, t)
  {
    hide MatchHere, IsPrefixed;
  }

  lemma RestoreOneMore(cc: Classes, prefix: string, after: bool, t: string, tight: string)
    requires t != ""
    requires var n := Width(cc, after, t); var b := cc.word(t[n - 1]);
             Restore(prefix, Gaps(cc, prefix, b, t[n..]), Substitute(cc, prefix, b, t[n..])) == Some(tight)
    ensures Restore(prefix, Gaps(cc, prefix, after, t), Substitute(cc, prefix, after, t)) == Some(TightPiece(cc, prefix, after, t) + tight)
  {
    hide MatchHere, Width, Piece, StableHere, Restore, Later, Gaps, Substitute;
    var n := Width(cc, after, t);
    var gaps, rest := Gaps(cc, prefix, cc.word(t[n - 1]), t[n..]), Substitute(cc, prefix, cc.word(t[n - 1]), t[n..]);
    OneMorePiece(cc, prefix, after, t);
    if StableHere(cc, prefix, after, t) {
      PieceIsFixed(cc, prefix, after, t);
      RestoreLater(prefix, gaps, t[..n], rest, tight);
    } else {
      var m := MatchHere(cc, after, t);
      ReplacementInserts(cc, prefix, after, t);
      RestoreAround(prefix, gaps, t[..m.name] + ['=', t[m.quote]], t[m.quote + 1..n], rest, tight);
    }
  }

  lemma {:induction false} RestoreNothing(cc: Classes, prefix: string, after: bool)
    ensures Restore(prefix, Gaps(cc, prefix, after, ""), Substitute(cc, prefix, after, "")) == Some("")
  {
  }

  /** A replacement is the tightened attribute with the prefix put in. */
  lemma ReplacementInserts(cc: Classes, prefix: string, after: bool, t: string)
    requires t != "" && !StableHere(cc, prefix, after, t)
    ensures var m, n := MatchHere(cc, after, t), Width(cc, after, t);
            && m.Match? && m.name < m.quote < n <= |t|
            && Piece(cc, prefix, after, t) == (t[..m.name] + ['=', t[m.quote]]) + prefix + t[m.quote + 1..n]
  {
    hide MatchHere, IsPrefixed;
    var m := MatchHere(cc, after, t);
    assert t[m.quote + 1..m.close + 1] == PathOf(t, m) + [t[m.close]];
  }

  // ----- when nothing is lost -----

  lemma TightPieceIs(cc: Classes, prefix: string, after: bool, t: string)
    requires t != ""
    ensures var p, n := TightPiece(cc, prefix, after, t), Width(cc, after, t);
            if TightHere(cc, prefix, after, t) then p == t[..n] else |p| < n
  {
    hide MatchHere, IsPrefixed, NameAt;
    FoundMatches(cc, after, t);
    var m := MatchHere(cc, after, t);
    if !StableHere(cc, prefix, after, t) && m.quote == m.name + 1 {
      assert t[..m.name] + ['=', t[m.quote]] == t[..m.quote + 1];
    }
  }

  lemma {:induction false} TightenedIsShorter(cc: Classes, prefix: string, after: bool, t: string)
    ensures if Tight(cc, prefix, after, t) then Tightened(cc, prefix, after, t) == t else |Tightened(cc, prefix, after, t)| < |t|
    decreases |t|
  {
    hide Width, TightHere, TightPiece;
    if t != "" {
      var n := Width(cc, after, t);
      TightPieceIs(cc, prefix, after, t);
      TightenedIsShorter(cc, prefix, cc.word(t[n - 1]), t[n..]);
      assert t == t[..n] + t[n..];
    }
  }

  /** The page comes back exactly if no rewritten attribute has blanks around its `=`. */
  lemma {:induction false} RestoreUndoesExactly(cc: Classes, prefix: string, after: bool, t: string)
    ensures Restore(prefix, Gaps(cc, prefix, after, t), Substitute(cc, prefix, after, t)) == Some(t) <==> Tight(cc, prefix, after, t)
  {
    hide Tight, Tightened, Restore, Gaps, Substitute;
    RestoreTightens(cc, prefix, after, t);
    TightenedIsShorter(cc, prefix, after, t);
  }
}
