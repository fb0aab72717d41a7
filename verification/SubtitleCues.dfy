/** The subtitles of one scene in closed form. */
module SubtitleCues {
  import opened Wrappers
  import opened Text
  import opened Subtitles

  /** Where the words of cue number `j` of a scene with `n` words begin. */
  function From(j: nat): nat {
    10 * j
  }

  function To(j: nat, n: nat): nat {
    if 10 * j + 10 <= n then 10 * j + 10 else n
  }

  /** Cue number `j`, counted from 0, of a scene: ten words, or those that are left, in their share of the time. */
  predicate IsCue(c: Cue, number: nat, words: seq<string>, j: nat, start: real, total: nat, duration: real)
    requires total > 0 && From(j) <= |words|
  {
    && c.number == number && c.text == Join(" ", words[From(j)..To(j, |words|)])
    && c.start == start + duration * (From(j) as real) / total as real
    && c.end == start + duration * (To(j, |words|) as real) / total as real
  }

  lemma PartIs(n: nat, total: nat, duration: real)
    requires total > 0
    ensures Part(n, total, duration) == duration * (n as real) / total as real
  {
    var x, y := n as real, total as real;
    assert (x / y) * duration == duration * (x / y);
    Quotients(duration, x, y);
  }

  lemma Quotients(d: real, x: real, y: real)
    requires y > 0.0
    ensures d * (x / y) == d * x / y
  {
  }

  lemma {:induction false} SharesAddUp(a: nat, b: nat, total: nat, duration: real)
    requires total > 0
    ensures Part(a, total, duration) + duration * (b as real) / total as real == duration * ((a + b) as real) / total as real
  {
    PartsAddUp(a, b, total, duration);
    PartIs(b, total, duration);
    PartIs(a + b, total, duration);
  }

  lemma {:induction false} SayAllUnfolds(t: Timeline, words: seq<string>, total: nat, duration: real)
    requires total > 0 && words != []
    ensures SayAll(t, words, total, duration) == SayAll(Say(t, ChunkOf(words), total, duration), words[|ChunkOf(words)|..], total, duration)
  {
    hide Say;
  }

  lemma {:induction false} SayNothing(t: Timeline, total: nat, duration: real)
    requires total > 0
    ensures SayAll(t, [], total, duration) == t
  {
  }

  /** A cue of the rest of a scene is the next cue of the scene. */
  lemma CueMovesOn(c: Cue, number: nat, words: seq<string>, rest: seq<string>, j: nat, start: real, next: real, total: nat, duration: real)
    requires total > 0 && |words| >= 10 && rest == words[10..] && next == start + Part(10, total, duration)
    requires From(j) < |rest| && IsCue(c, number, rest, j, next, total, duration)
    ensures IsCue(c, number, words, j + 1, start, total, duration)
  {
    hide Part, Join;
    assert rest[From(j)..To(j, |rest|)] == words[From(j + 1)..To(j + 1, |words|)];
    SharesAddUp(10, From(j), total, duration);
    SharesAddUp(10, To(j, |rest|), total, duration);
  }

  lemma {:induction false} SayAllExactly(t: Timeline, words: seq<string>, total: nat, duration: real, j: nat)
    requires total > 0 && From(j) < |words|
    ensures var r := SayAll(t, words, total, duration);
            && |r.cues| > |t.cues| + j && r.cues[..|t.cues|] == t.cues
            && IsCue(r.cues[|t.cues| + j], |t.cues| + j + 1, words, j, t.clock, total, duration)
    decreases |words|
  {
    hide Part, Join, SayAll, Say, IsCue;
    var n := |ChunkOf(words)|;
    var next := Say(t, ChunkOf(words), total, duration);
    var rest := words[n..];
    var r := SayAll(t, words, total, duration);
    SayAllUnfolds(t, words, total, duration);
    FirstCue(t, words, total, duration);
    if rest == [] {
      SayNothing(next, total, duration);
    } else {
      SayAllExactly(next, rest, total, duration, if j > 0 then j - 1 else 0);
      OneCueOn(t.cues, next.cues, r.cues);
      if j > 0 {
        CueMovesOn(r.cues[|t.cues| + j], |t.cues| + j + 1, words, rest, j - 1, t.clock, next.clock, total, duration);
      }
    }
  }

  lemma OneCueOn(a: seq<Cue>, b: seq<Cue>, c: seq<Cue>)
    requires |b| == |a| + 1 && b[..|a|] == a && |c| >= |b| && c[..|b|] == b
    ensures c[..|a|] == a && c[|a|] == b[|a|]
  {
    assert c[..|a|] == c[..|b|][..|a|];
    assert c[|a|] == c[..|b|][|a|];
  }

  lemma FirstCue(t: Timeline, words: seq<string>, total: nat, duration: real)
    requires total > 0 && words != []
    ensures var r := Say(t, ChunkOf(words), total, duration);
            && |r.cues| == |t.cues| + 1 && r.cues[..|t.cues|] == t.cues && r.clock == t.clock + Part(|ChunkOf(words)|, total, duration)
            && IsCue(r.cues[|t.cues|], |t.cues| + 1, words, 0, t.clock, total, duration)
  {
    hide Part, Join;
    PartIs(|ChunkOf(words)|, total, duration);
    assert ChunkOf(words) == words[From(0)..To(0, |words|)];
  }

  /** What a scene adds, for every scene: without a narration its duration, zero if it has none; with a narration of
      blanks nothing; otherwise its cues in order, all but the last of ten words, and its duration, ten if it has none. */
  lemma {:induction false} SceneExactly(space: Blank, t: Timeline, scene: Scene)
    ensures var r, words := Play(space, t, scene), Words(space, scene.narration);
            var duration := if scene.duration.Some? then scene.duration.value else if scene.narration == "" then 0.0 else 10.0;
            if scene.narration != "" && words == [] then r == t
            else
              && r.clock == t.clock + duration
              && |r.cues| == |t.cues| + (|words| + 9) / 10 && r.cues[..|t.cues|] == t.cues
              && forall j: nat | From(j) < |words| :: IsCue(r.cues[|t.cues| + j], |t.cues| + j + 1, words, j, t.clock, |words|, duration)
  {
    hide Words, SayAll, IsCue, Part;
    var words := Words(space, scene.narration);
    if scene.narration == "" {
      NoWords(space);
      assert t.cues[..|t.cues|] == t.cues;
    } else if words != [] {
      var d := DurationOr(scene, 10.0);
      SayAllTakes(t, words, |words|, d);
      PartsAddUp(0, 0, |words|, d);
      SayAllExactly(t, words, |words|, d, 0);
      forall j: nat | From(j) < |words|
        ensures |SayAll(t, words, |words|, d).cues| > |t.cues| + j
        ensures IsCue(SayAll(t, words, |words|, d).cues[|t.cues| + j], |t.cues| + j + 1, words, j, t.clock, |words|, d)
      {
        SayAllExactly(t, words, |words|, d, j);
      }
    }
  }

  lemma NoWords(space: Blank)
    ensures Words(space, "") == []
  {
  }
}
