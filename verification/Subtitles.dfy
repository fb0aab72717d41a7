/** The subtitle file of an episode: narrations cut into cues of at most ten words, on one running clock. */
module Subtitles {
  import opened Wrappers
  import opened Text

  datatype Scene = Scene(narration: string, duration: Option<real>)

  datatype Cue = Cue(number: nat, start: real, end: real, text: string)

  /** The running time and the cues so far. */
  datatype Timeline = Timeline(clock: real, cues: seq<Cue>)

  const CHUNK := 10
  const DEFAULT_DURATION := 10.0

  function DurationOr(scene: Scene, default: real): real {
    if scene.duration.Some? then scene.duration.value else default
  }

  /** The time `n` of `total` words get. */
  function Part(n: nat, total: nat, duration: real): real
    requires total > 0
  {
    (n as real / total as real) * duration
  }

  /** The next chunk of words becomes a cue, with its share of the scene's duration. */
  function Say(t: Timeline, chunk: seq<string>, total: nat, duration: real): Timeline
    requires total > 0
  {
    var end := t.clock + Part(|chunk|, total, duration);
    Timeline(end, t.cues + [Cue(|t.cues| + 1, t.clock, end, Join(" ", chunk))])
  }

  function ChunkOf(words: seq<string>): seq<string> {
    if |words| <= CHUNK then words else words[..CHUNK]
  }

  /** All the words that are left, out of `total`. */
  function SayAll(t: Timeline, words: seq<string>, total: nat, duration: real): Timeline
    requires total > 0
    decreases |words|
  {
    if words == [] then t
    else SayAll(Say(t, ChunkOf(words), total, duration), words[|ChunkOf(words)|..], total, duration)
  }

  function Play(space: Blank, t: Timeline, scene: Scene): Timeline {
    if scene.narration == "" then t.(clock := t.clock + DurationOr(scene, 0.0))
    else
      var words := Words(space, scene.narration);
      if words == [] then t else SayAll(t, words, |words|, DurationOr(scene, DEFAULT_DURATION))
  }

  /** The timeline after the first `k` scenes. */
  function After(space: Blank, scenes: seq<Scene>, k: nat): Timeline
    requires k <= |scenes|
  {
    if k == 0 then Timeline(0.0, []) else Play(space, After(space, scenes, k - 1), scenes[k - 1])
  }

  // ----- the file -----

  function Digit(d: nat): char
    requires d < 10
  {
    "0123456789"[d]
  }

  function Decimal(n: nat): string {
    if n < 10 then [Digit(n)] else Decimal(n / 10) + [Digit(n % 10)]
  }

  /** `{n:0wd}` for a number that is not negative; a minus sign counts as one of the places. */
  function Padded(n: int, width: nat): string {
    if n < 0 then "-" + Zeros(Decimal(-n), if width > 0 then width - 1 else 0) else Zeros(Decimal(n), width)
  }

  function Zeros(s: string, width: nat): string
    decreases if |s| < width then width - |s| else 0
  {
    if |s| < width then Zeros("0" + s, width) else s
  }

  /** `x // d` and `x % d` for a real `x` and a positive `d`. */
  function Quotient(x: real, d: int): int
    requires d > 0
  {
    (x / d as real).Floor
  }

  function Remainder(x: real, d: int): real
    requires d > 0
  {
    x - (d as real) * (Quotient(x, d) as real)
  }

  datatype Clock = Clock(h: int, m: int, s: int, ms: int)

  function ClockOf(t: real): Clock {
    Clock(Quotient(t, 3600), Quotient(Remainder(t, 3600), 60), Remainder(t, 60).Floor, (Remainder(t, 1) * 1000.0).Floor)
  }

  function SrtTime(t: real): string {
    var c := ClockOf(t);
    Padded(c.h, 2) + ":" + Padded(c.m, 2) + ":" + Padded(c.s, 2) + "," + Padded(c.ms, 3)
  }

  function CueText(c: Cue): string {
    Decimal(c.number) + "\n" + SrtTime(c.start) + " --> " + SrtTime(c.end) + "\n" + c.text + "\n\n"
  }

  function Render(cues: seq<Cue>): string {
    if cues == [] then "" else Render(cues[..|cues| - 1]) + CueText(cues[|cues| - 1])
  }

  lemma {:induction false} RenderOneMore(cues: seq<Cue>, c: Cue)
    ensures Render(cues + [c]) == Render(cues) + CueText(c)
  {
  }

  /** The file, the clock and the next number are those of the timeline. */
  ghost predicate Written(file: string, runningTime: real, idx: nat, t: Timeline) {
    file == Render(t.cues) && runningTime == t.clock && idx == |t.cues| + 1
  }

  /** The whole file. */
  function SubtitleFile(space: Blank, scenes: seq<Scene>): string {
    Render(After(space, scenes, |scenes|).cues)
  }

  /** `_generate_srt`: what is written to the file. */
  method GenerateSrt(space: Blank, scenes: seq<Scene>) returns (srt: string)
    requires space(' ')
    ensures srt == SubtitleFile(space, scenes)
  {
    hide SayAll, Words;
    srt := "";
    var runningTime, idx := 0.0, 1;
    ghost var t := Timeline(0.0, []);
    for k := 0 to |scenes|
      invariant t == After(space, scenes, k) && Written(srt, runningTime, idx, t)
    {
      var scene := scenes[k];
      if scene.narration == "" {
        runningTime := runningTime + DurationOr(scene, 0.0);
      } else {
        var duration := DurationOr(scene, DEFAULT_DURATION);
        var words := Words(space, scene.narration);
        WordsAreWords(space, scene.narration);
        srt, runningTime, idx := WriteNarration(space, words, duration, srt, runningTime, idx, t);
        var narrDur := duration;
        if runningTime < runningTime + duration - narrDur {
          runningTime := runningTime + (duration - narrDur);
        }
      }
      t := Play(space, t, scene);
    }
  }

  /** The cues of one narration, chunk by chunk. */
  method WriteNarration(space: Blank, words: seq<string>, duration: real, file0: string, start0: real, idx0: nat,
          ghost t0: Timeline)
    returns (file: string, runningTime: real, idx: nat)
    requires space(' ') && (forall w | w in words :: IsWord(space, w)) && Written(file0, start0, idx0, t0)
    ensures Written(file, runningTime, idx, if words == [] then t0 else SayAll(t0, words, |words|, duration))
  {
    hide Words, Join, Say, Written;
    file, runningTime, idx := file0, start0, idx0;
    ghost var t := t0;
    var i := 0;
    while i < |words|
      invariant 0 <= i && Written(file, runningTime, idx, t)
      invariant words != [] ==> SayAll(t0, words, |words|, duration) == SayAll(t, words[if i < |words| then i else |words|..], |words|, duration)
      invariant words == [] ==> t == t0
      decreases |words| - i
    {
      var chunkWords := if i + CHUNK <= |words| then words[i..i + CHUNK] else words[i..];
      assert chunkWords == ChunkOf(words[i..]);
      assert words[i..][|chunkWords|..] == words[if i + CHUNK < |words| then i + CHUNK else |words|..];
      file, runningTime, idx := WriteCue(space, chunkWords, |words|, duration, file, runningTime, idx, t);
      t := Say(t, chunkWords, |words|, duration);
      i := i + CHUNK;
    }
  }

  method WriteCue(space: Blank, chunkWords: seq<string>, total: nat, duration: real, file0: string, start: real,
          idx0: nat, ghost t: Timeline)
    returns (file: string, end: real, idx: nat)
    requires space(' ') && (forall w | w in chunkWords :: IsWord(space, w)) && total > 0 && Written(file0, start, idx0, t)
    ensures Written(file, end, idx, Say(t, chunkWords, total, duration))
  {
    hide Words, Join, Render, CueText, SrtTime, Decimal;
    var chunk := Join(" ", chunkWords);
    WordsOfJoin(space, chunkWords);
    var chunkDur := Part(|Words(space, chunk)|, total, duration);
    end := start + chunkDur;
    RenderOneMore(t.cues, Cue(idx0, start, end, chunk));
    CueTextIs(Cue(idx0, start, end, chunk));
    file := file0 + (Decimal(idx0) + "\n" + SrtTime(start) + " --> " + SrtTime(end) + "\n" + chunk + "\n\n");
    idx := idx0 + 1;
  }

  lemma CueTextIs(c: Cue)
    ensures CueText(c) == Decimal(c.number) + "\n" + SrtTime(c.start) + " --> " + SrtTime(c.end) + "\n" + c.text + "\n\n"
  {
  }

  // ----- the running clock -----

  lemma PartsAddUp(a: nat, b: nat, total: nat, duration: real)
    requires total > 0
    ensures Part(a, total, duration) + Part(b, total, duration) == Part(a + b, total, duration)
    ensures Part(0, total, duration) == 0.0 && Part(total, total, duration) == duration
    ensures duration >= 0.0 ==> Part(a, total, duration) >= 0.0
  {
  }

  lemma {:induction false} SayAllTakes(t: Timeline, words: seq<string>, total: nat, duration: real)
    requires total > 0
    ensures SayAll(t, words, total, duration).clock == t.clock + Part(|words|, total, duration)
    ensures |SayAll(t, words, total, duration).cues| == |t.cues| + (|words| + CHUNK - 1) / CHUNK
    decreases |words|
  {
    hide Part, Join;
    PartsAddUp(0, 0, total, duration);
    if words != [] {
      var n := |ChunkOf(words)|;
      SayAllTakes(Say(t, ChunkOf(words), total, duration), words[n..], total, duration);
      PartsAddUp(n, |words| - n, total, duration);
    }
  }

  predicate IsBlank(space: Blank, scene: Scene) {
    scene.narration != "" && Words(space, scene.narration) == []
  }

  function Duration(scene: Scene): real {
    DurationOr(scene, if scene.narration == "" then 0.0 else DEFAULT_DURATION)
  }

  function Heard(space: Blank, scene: Scene): real {
    if IsBlank(space, scene) then 0.0 else Duration(scene)
  }

  lemma PlayTakes(space: Blank, t: Timeline, scene: Scene)
    ensures Play(space, t, scene).clock == t.clock + Heard(space, scene)
  {
    hide SayAll, Part, Words;
    var words := Words(space, scene.narration);
    if scene.narration != "" && words != [] {
      SayAllTakes(t, words, |words|, Duration(scene));
      PartsAddUp(0, 0, |words|, Duration(scene));
    }
  }

  /** The first `k` durations together. */
  function Durations(scenes: seq<Scene>, k: nat): real
    requires k <= |scenes|
  {
    if k == 0 then 0.0 else Durations(scenes, k - 1) + Duration(scenes[k - 1])
  }

  /** The durations of those among the first `k` scenes whose narration is only blanks. */
  function Lost(space: Blank, scenes: seq<Scene>, k: nat): real
    requires k <= |scenes|
  {
    if k == 0 then 0.0
    else if IsBlank(space, scenes[k - 1]) then Lost(space, scenes, k - 1) + Duration(scenes[k - 1])
    else Lost(space, scenes, k - 1)
  }

  /** At every scene boundary the clock is the sum of the durations so far, less those of blank narrations. */
  lemma {:induction false} ClockIsDurations(space: Blank, scenes: seq<Scene>, k: nat)
    requires k <= |scenes|
    ensures After(space, scenes, k).clock == Durations(scenes, k) - Lost(space, scenes, k)
  {
    hide IsBlank, Play;
    if k > 0 {
      ClockIsDurations(space, scenes, k - 1);
      PlayTakes(space, After(space, scenes, k - 1), scenes[k - 1]);
    }
  }

  /** So subtitles keep in step with the scenes exactly when no blank narration has a duration. */
  lemma {:induction false} ClockIsRightExactly(space: Blank, scenes: seq<Scene>)
    ensures (forall k: nat | k <= |scenes| :: After(space, scenes, k).clock == Durations(scenes, k))
            <==> forall k: nat | k < |scenes| && IsBlank(space, scenes[k]) :: Duration(scenes[k]) == 0.0
  {
    hide After, Durations, IsBlank;
    forall k: nat | k <= |scenes|
      ensures After(space, scenes, k).clock == Durations(scenes, k) - Lost(space, scenes, k)
    {
      ClockIsDurations(space, scenes, k);
    }
    if forall k: nat | k < |scenes| && IsBlank(space, scenes[k]) :: Duration(scenes[k]) == 0.0 {
      forall k: nat | k <= |scenes|
        ensures Lost(space, scenes, k) == 0.0
      {
        NothingLost(space, scenes, k);
      }
    } else {
      var k: nat :| k < |scenes| && IsBlank(space, scenes[k]) && Duration(scenes[k]) != 0.0;
      LossShows(space, scenes, k);
    }
  }

  /** A scene of ten seconds with a blank for a narration, then one that speaks: its first subtitle is there
      ten seconds too early. */
  lemma BlankSceneIsLost(space: Blank)
    requires space(' ') && !space('a')
    ensures var scenes := [Scene(" ", Some(10.0)), Scene("a", Some(5.0))];
            && Durations(scenes, 1) == 10.0
            && var cues := After(space, scenes, 2).cues; |cues| == 1 && cues[0] == Cue(1, 0.0, 5.0, "a")
  {
    hide Words;
    var scenes := [Scene(" ", Some(10.0)), Scene("a", Some(5.0))];
    BlankHasNoWords(space);
    OneWord(space, "a");
    assert ["a"][1..] == [];
    assert ChunkOf(["a"]) == ["a"] && Join(" ", ["a"]) == "a";
    var t := Timeline(0.0, []);
    assert Play(space, t, scenes[0]) == t;
    SayAllTakes(t, ["a"], 1, 5.0);
    assert Play(space, t, scenes[1]).cues == [Cue(1, 0.0, 5.0, "a")];
    assert After(space, scenes, 1) == t;
  }

  lemma BlankHasNoWords(space: Blank)
    requires space(' ')
    ensures Words(space, " ") == []
  {
    assert " "[1..] == "";
  }

  lemma LossShows(space: Blank, scenes: seq<Scene>, k: nat)
    requires k < |scenes| && IsBlank(space, scenes[k]) && Duration(scenes[k]) != 0.0
    ensures After(space, scenes, k).clock != Durations(scenes, k) || After(space, scenes, k + 1).clock != Durations(scenes, k + 1)
  {
  }

  lemma {:induction false} NothingLost(space: Blank, scenes: seq<Scene>, k: nat)
    requires k <= |scenes| && forall i: nat | i < |scenes| && IsBlank(space, scenes[i]) :: Duration(scenes[i]) == 0.0
    ensures Lost(space, scenes, k) == 0.0
  {
    if k > 0 {
      NothingLost(space, scenes, k - 1);
    }
  }

  // ----- the cues -----

  /** The words of all cues, in order. */
  function Spoken(space: Blank, cues: seq<Cue>): seq<string> {
    if cues == [] then [] else Spoken(space, cues[..|cues| - 1]) + Words(space, cues[|cues| - 1].text)
  }

  function Narrated(space: Blank, scenes: seq<Scene>, k: nat): seq<string>
    requires k <= |scenes|
  {
    if k == 0 then [] else Narrated(space, scenes, k - 1) + Words(space, scenes[k - 1].narration)
  }

  /** Cues are numbered from 1 and have one to ten words. */
  ghost predicate WellFormed(space: Blank, t: Timeline) {
    forall i | 0 <= i < |t.cues| ::
      var words := Words(space, t.cues[i].text);
      t.cues[i].number == i + 1 && 1 <= |words| <= CHUNK && t.cues[i].text == Join(" ", words)
  }

  /** No cue starts before zero, ends before it starts, after a later one starts, or after the clock. */
  ghost predicate InOrder(t: Timeline) {
    && 0.0 <= t.clock && (forall i | 0 <= i < |t.cues| :: 0.0 <= t.cues[i].start <= t.cues[i].end <= t.clock)
    && (forall i, j | 0 <= i < j < |t.cues| :: t.cues[i].end <= t.cues[j].start)
  }

  lemma SayKeeps(space: Blank, t: Timeline, chunk: seq<string>, total: nat, duration: real)
    requires space(' ') && total > 0 && 1 <= |chunk| <= CHUNK && forall w | w in chunk :: IsWord(space, w)
    ensures var r := Say(t, chunk, total, duration);
            && Spoken(space, r.cues) == Spoken(space, t.cues) + chunk
            && (WellFormed(space, t) ==> WellFormed(space, r))
            && (duration >= 0.0 && InOrder(t) ==> InOrder(r))
  {
    hide Words, Join, Part;
    WordsOfJoin(space, chunk);
    PartsAddUp(|chunk|, 0, total, duration);
    var r := Say(t, chunk, total, duration);
    assert r.cues[..|r.cues| - 1] == t.cues;
  }

  lemma {:induction false} SayAllKeeps(space: Blank, t: Timeline, words: seq<string>, total: nat, duration: real)
    requires space(' ') && total > 0 && forall w | w in words :: IsWord(space, w)
    ensures var r := SayAll(t, words, total, duration);
            && Spoken(space, r.cues) == Spoken(space, t.cues) + words
            && (WellFormed(space, t) ==> WellFormed(space, r))
            && (duration >= 0.0 && InOrder(t) ==> InOrder(r))
    decreases |words|
  {
    hide Words, Say, Spoken, WellFormed, InOrder;
    if words != [] {
      var chunk := ChunkOf(words);
      SayKeeps(space, t, chunk, total, duration);
      SayAllKeeps(space, Say(t, chunk, total, duration), words[|chunk|..], total, duration);
      assert words == chunk + words[|chunk|..];
    }
  }

  lemma PlayKeeps(space: Blank, t: Timeline, scene: Scene)
    requires space(' ')
    ensures var r := Play(space, t, scene);
            && Spoken(space, r.cues) == Spoken(space, t.cues) + Words(space, scene.narration)
            && (WellFormed(space, t) ==> WellFormed(space, r))
            && (Duration(scene) >= 0.0 && InOrder(t) ==> InOrder(r))
  {
    hide SayAll, Spoken, IsWord;
    WordsAreWords(space, scene.narration);
    var words := Words(space, scene.narration);
    if scene.narration != "" && words != [] {
      SayAllKeeps(space, t, words, |words|, Duration(scene));
    }
  }

  /** From `t` to `r` cues are added that follow each other without a gap, from clock to clock, each as long
      as its share of the words. */
  ghost predicate Fills(space: Blank, t: Timeline, r: Timeline, total: nat, duration: real)
    requires total > 0
  {
    && |t.cues| < |r.cues| && r.cues[..|t.cues|] == t.cues
    && r.cues[|t.cues|].start == t.clock && r.cues[|r.cues| - 1].end == r.clock
    && (forall i | |t.cues| < i < |r.cues| :: r.cues[i].start == r.cues[i - 1].end)
    && (forall i | |t.cues| <= i < |r.cues| :: r.cues[i].end == r.cues[i].start + Part(|Words(space, r.cues[i].text)|, total, duration))
  }

  lemma SayFills(space: Blank, t: Timeline, chunk: seq<string>, total: nat, duration: real)
    requires space(' ') && total > 0 && forall w | w in chunk :: IsWord(space, w)
    ensures Fills(space, t, Say(t, chunk, total, duration), total, duration)
  {
    hide Words, Part;
    WordsOfJoin(space, chunk);
  }

  lemma FillsOn(space: Blank, t: Timeline, m: Timeline, r: Timeline, total: nat, duration: real)
    requires total > 0 && Fills(space, t, m, total, duration) && Fills(space, m, r, total, duration)
    ensures Fills(space, t, r, total, duration)
  {
    hide Words, Part;
    assert forall i | 0 <= i < |m.cues| :: r.cues[i] == r.cues[..|m.cues|][i];
    assert forall i | 0 <= i < |t.cues| :: m.cues[i] == m.cues[..|t.cues|][i];
  }

  /** The cues of a scene fill its time exactly. */
  lemma {:induction false} SceneIsFilled(space: Blank, t: Timeline, words: seq<string>, total: nat, duration: real)
    requires space(' ') && total > 0 && words != [] && forall w | w in words :: IsWord(space, w)
    ensures Fills(space, t, SayAll(t, words, total, duration), total, duration)
    decreases |words|
  {
    hide Fills, Say;
    var chunk := ChunkOf(words);
    SayFills(space, t, chunk, total, duration);
    if |chunk| < |words| {
      SceneIsFilled(space, Say(t, chunk, total, duration), words[|chunk|..], total, duration);
      FillsOn(space, t, Say(t, chunk, total, duration), SayAll(t, words, total, duration), total, duration);
    }
  }

  /** Over the whole episode: the cues' words are the narrations' words, in order, one to ten in each cue;
      cues are numbered 1, 2, ... and, if no duration is negative, never overlap. */
  lemma {:induction false} CuesAreTheNarration(space: Blank, scenes: seq<Scene>, k: nat)
    requires space(' ') && k <= |scenes|
    ensures Spoken(space, After(space, scenes, k).cues) == Narrated(space, scenes, k)
    ensures WellFormed(space, After(space, scenes, k))
    ensures (forall i | 0 <= i < |scenes| :: Duration(scenes[i]) >= 0.0) ==> InOrder(After(space, scenes, k))
  {
    hide Play, WellFormed, InOrder, Words;
    if k > 0 {
      CuesAreTheNarration(space, scenes, k - 1);
      PlayKeeps(space, After(space, scenes, k - 1), scenes[k - 1]);
    } else {
      NothingSaid(space);
    }
  }

  lemma NothingSaid(space: Blank)
    ensures WellFormed(space, Timeline(0.0, [])) && InOrder(Timeline(0.0, []))
  {
  }

  // ----- the printed times -----

  lemma QuotientIs(x: real, d: int)
    requires d > 0
    ensures var q := Quotient(x, d); (d as real) * (q as real) <= x < (d as real) * (q as real) + d as real
    ensures 0.0 <= Remainder(x, d) < d as real
  {
    var q, e := Quotient(x, d), d as real;
    Scaled(x, x / e, q as real, e, e * (q as real));
  }

  lemma Positive(a: real, b: real)
    requires a > 0.0 && b > 0.0
    ensures a * b > 0.0
  {
  }

  lemma Scaled(x: real, y: real, f: real, e: real, low: real)
    requires f <= y < f + 1.0 && e > 0.0 && x == y * e && low == f * e
    ensures low <= x < low + e
  {
    var g := f + 1.0 - y;
    Positive(g, e);
    assert y == f + 1.0 - g;
    assert x == (f + 1.0 - g) * e;
    assert (f + 1.0 - g) * e == f * e + e - g * e;
  }

  lemma MinutesAndHours(t: real, h: int, m: int, q: int)
    requires 3600.0 * (h as real) <= t < 3600.0 * (h as real) + 3600.0
    requires 60.0 * (m as real) <= t - 3600.0 * (h as real) < 60.0 * (m as real) + 60.0
    requires 60.0 * (q as real) <= t < 60.0 * (q as real) + 60.0
    ensures q == 60 * h + m && 0 <= m < 60 && (h >= 0 <==> t >= 0.0)
  {
  }

  lemma Seconds(t: real, q: int, n: int)
    requires 60.0 * (q as real) <= t < 60.0 * (q as real) + 60.0 && n as real <= t < n as real + 1.0
    ensures (t - 60.0 * (q as real)).Floor == n - 60 * q && 0 <= n - 60 * q < 60
  {
  }

  lemma Milliseconds(t: real, n: int)
    requires n as real <= t < n as real + 1.0
    ensures var ms := ((t - n as real) * 1000.0).Floor; 0 <= ms < 1000 && (1000.0 * t).Floor == 1000 * n + ms
  {
  }

  /** Minutes, seconds and milliseconds are in range, and the fields together are the time in milliseconds,
      rounded down; also before zero, where only the hours are negative. */
  lemma ClockFields(t: real)
    ensures var c := ClockOf(t);
            && 0 <= c.m < 60 && 0 <= c.s < 60 && 0 <= c.ms < 1000 && (c.h >= 0 <==> t >= 0.0)
            && 1000 * (3600 * c.h + 60 * c.m + c.s) + c.ms == (1000.0 * t).Floor
  {
    hide Quotient;
    var h, q, n := Quotient(t, 3600), Quotient(t, 60), Quotient(t, 1);
    QuotientIs(t, 3600);
    QuotientIs(Remainder(t, 3600), 60);
    QuotientIs(t, 60);
    QuotientIs(t, 1);
    MinutesAndHours(t, h, Quotient(Remainder(t, 3600), 60), q);
    Seconds(t, q, n);
    Milliseconds(t, n);
  }

  /** Later times are printed as later times, or the same. */
  lemma ClockIsMonotone(t: real, u: real)
    requires t <= u
    ensures var c, d := ClockOf(t), ClockOf(u);
            1000 * (3600 * c.h + 60 * c.m + c.s) + c.ms <= 1000 * (3600 * d.h + 60 * d.m + d.s) + d.ms
  {
    hide ClockOf;
    ClockFields(t);
    ClockFields(u);
  }

  // ----- reading a printed time -----

  predicate IsDigits(s: string) {
    forall k | 0 <= k < |s| :: '0' <= s[k] <= '9'
  }

  function Value(s: string): nat
    requires IsDigits(s)
  {
    if s == "" then 0 else 10 * Value(s[..|s| - 1]) + (s[|s| - 1] as int - '0' as int)
  }

  /** Hours, minutes, seconds and milliseconds, in milliseconds. */
  function ParseTime(s: string): Option<nat> {
    var n := |s|;
    if n >= 12 && s[n - 10] == ':' && s[n - 7] == ':' && s[n - 4] == ','
       && IsDigits(s[..n - 10]) && IsDigits(s[n - 9..n - 7]) && IsDigits(s[n - 6..n - 4]) && IsDigits(s[n - 3..])
    then Some(1000 * (3600 * Value(s[..n - 10]) + 60 * Value(s[n - 9..n - 7]) + Value(s[n - 6..n - 4])) + Value(s[n - 3..]))
    else None
  }

  lemma {:induction false} DecimalIsRead(n: nat)
    ensures IsDigits(Decimal(n)) && Value(Decimal(n)) == n
    ensures 1 <= |Decimal(n)| && (n < 100 ==> |Decimal(n)| <= 2) && (n < 1000 ==> |Decimal(n)| <= 3)
  {
    if n >= 10 {
      DecimalIsRead(n / 10);
      if n < 100 { OneDigit(n / 10); }
      DigitIsRead(Decimal(n / 10), n % 10);
    } else {
      DigitIsRead("", n);
      assert "" + [Digit(n)] == [Digit(n)];
    }
  }

  lemma {:induction false} DigitIsRead(s: string, d: nat)
    requires IsDigits(s) && d < 10
    ensures IsDigits(s + [Digit(d)]) && Value(s + [Digit(d)]) == 10 * Value(s) + d
  {
    var t := s + [Digit(d)];
    assert t[..|s|] == s && t[|s|] == Digit(d);
    assert Digit(d) as int - '0' as int == d;
  }

  lemma {:induction false} OneDigit(n: nat)
    requires n < 10
    ensures |Decimal(n)| == 1
  {
  }

  lemma {:induction false} LeadingZero(s: string)
    requires IsDigits(s)
    ensures IsDigits("0" + s) && Value("0" + s) == Value(s)
  {
    if s == "" {
      assert "0"[..0] == "";
    } else {
      assert ("0" + s)[..|s|] == "0" + s[..|s| - 1];
      LeadingZero(s[..|s| - 1]);
    }
  }

  lemma {:induction false} ZerosAreRead(s: string, width: nat)
    requires IsDigits(s)
    ensures var z := Zeros(s, width); IsDigits(z) && Value(z) == Value(s) && |z| == if |s| < width then width else |s|
    decreases if |s| < width then width - |s| else 0
  {
    hide Value;
    if |s| < width {
      LeadingZero(s);
      ZerosAreRead("0" + s, width);
    }
  }

  lemma PaddedIsRead(n: nat, width: nat)
    ensures var z := Padded(n, width); IsDigits(z) && Value(z) == n && |z| >= width
    ensures (width == 2 && n < 60) || (width == 3 && n < 1000) ==> |Padded(n, width)| == width
  {
    hide Decimal, Zeros, Value;
    DecimalIsRead(n);
    ZerosAreRead(Decimal(n), width);
  }

  /** Before zero, the minus sign takes one of the places. */
  lemma {:induction false} PaddedBelowZero(n: int, width: nat)
    requires n < 0
    ensures var z := Padded(n, width);
            && |z| >= 2 && z[0] == '-' && IsDigits(z[1..]) && Value(z[1..]) == -n && |z| >= width
            && (|z| > width ==> z[1..] == Decimal(-n))
  {
    hide Decimal, Value;
    var places := if width > 0 then width - 1 else 0;
    DecimalIsRead(-n);
    ZerosAreRead(Decimal(-n), places);
    assert Padded(n, width)[1..] == Zeros(Decimal(-n), places);
    if |Decimal(-n)| >= places {
      ZerosOfLong(Decimal(-n), places);
    }
  }

  lemma {:induction false} ZerosOfLong(s: string, width: nat)
    requires |s| >= width
    ensures Zeros(s, width) == s
  {
  }

  lemma Slices(h: string, m: string, s: string, ms: string)
    requires |m| == 2 && |s| == 2 && |ms| == 3
    ensures var t := h + ":" + m + ":" + s + "," + ms;
            var n := |t|;
            && n == |h| + 10 && t[n - 10] == ':' && t[n - 7] == ':' && t[n - 4] == ','
            && t[..n - 10] == h && t[n - 9..n - 7] == m && t[n - 6..n - 4] == s && t[n - 3..] == ms
  {
  }

  lemma {:induction false} PartsAreRead(h: string, m: string, s: string, ms: string)
    requires |h| >= 2 && |m| == 2 && |s| == 2 && |ms| == 3 && IsDigits(h) && IsDigits(m) && IsDigits(s) && IsDigits(ms)
    ensures ParseTime(h + ":" + m + ":" + s + "," + ms) == Some(1000 * (3600 * Value(h) + 60 * Value(m) + Value(s)) + Value(ms))
  {
    hide Value, IsDigits;
    Slices(h, m, s, ms);
  }

  /** A printed time reads back as the time in milliseconds, rounded down. */
  lemma PrintedTimeIsRead(t: real)
    requires t >= 0.0
    ensures (1000.0 * t).Floor >= 0 && ParseTime(SrtTime(t)) == Some((1000.0 * t).Floor)
  {
    hide ClockOf, Padded, ParseTime, Value, IsDigits;
    var c := ClockOf(t);
    ClockFields(t);
    PaddedIsRead(c.h, 2);
    PaddedIsRead(c.m, 2);
    PaddedIsRead(c.s, 2);
    PaddedIsRead(c.ms, 3);
    PartsAreRead(Padded(c.h, 2), Padded(c.m, 2), Padded(c.s, 2), Padded(c.ms, 3));
  }
}
