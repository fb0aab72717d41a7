/** What a keyword query returns, in terms of the words in the descriptions, categories and tags. */
module CapabilityRanking {
  import opened StableSort
  import opened CapabilityIndex
  import opened CapabilitySearch
  import opened MapSyncNetwork

  /** `part` stands somewhere in `text`. */
  ghost predicate Occurs(part: string, text: string) {
    exists before, behind :: text == before + part + behind
  }

  ghost predicate InDescription(n: Network, lower: string -> string, intent: string, name: string)
    requires name in n.registry
  {
    Occurs(lower(intent), lower(n.registry[name].description))
  }

  ghost predicate InCategory(n: Network, lower: string -> string, intent: string, name: string)
    requires name in n.registry
  {
    Occurs(lower(intent), lower(n.registry[name].category))
  }

  /** The tag and the intent contain one another, one way or the other. */
  ghost predicate Related(lower: string -> string, intent: string, tag: string) {
    Occurs(lower(tag), lower(intent)) || Occurs(lower(intent), lower(tag))
  }

  /** The places of the matching tags. */
  ghost function RelatedTags(lower: string -> string, intent: string, tags: seq<string>): set<int> {
    set i | 0 <= i < |tags| && Related(lower, intent, tags[i])
  }

  /** Ten for the description, five for each place of a matching tag, three for the category. */
  ghost function Points(n: Network, lower: string -> string, intent: string, name: string): nat
    requires name in n.registry
  {
    (if InDescription(n, lower, intent, name) then 10 else 0)
    + 5 * |RelatedTags(lower, intent, n.registry[name].tags)|
    + (if InCategory(n, lower, intent, name) then 3 else 0)
  }

  // ----- the score is these points -----

  lemma ContainsIs(text: string, part: string)
    ensures Contains(text, part) <==> Occurs(part, text)
  {
    if Contains(text, part) {
      var i :| 0 <= i <= |text| && StartsAt(text, part, i);
      assert text == text[..i] + part + text[i + |part|..];
    }
    if Occurs(part, text) {
      var before, behind :| text == before + part + behind;
      assert text[|before|..|before| + |part|] == part;
      assert StartsAt(text, part, |before|);
    }
  }

  lemma {:induction false} HitsAreTags(lower: string -> string, intent: string, tags: seq<string>)
    ensures TagHits(lower, lower(intent), tags) == |RelatedTags(lower, intent, tags)|
  {
    hide Contains, Occurs;
    if tags == [] {
      assert RelatedTags(lower, intent, tags) == {};
    } else {
      var k := |tags| - 1;
      HitsAreTags(lower, intent, tags[..k]);
      ContainsIs(lower(intent), lower(tags[k]));
      ContainsIs(lower(tags[k]), lower(intent));
      assert RelatedTags(lower, intent, tags)
          == RelatedTags(lower, intent, tags[..k]) + if Related(lower, intent, tags[k]) then {k} else {};
    }
  }

  lemma {:induction false} ScoreIsPoints(n: Network, lower: string -> string, intent: string, name: string)
    requires name in n.registry
    ensures ScoreOf(n, lower, lower(intent), name) == Points(n, lower, intent, name)
  {
    hide Contains, Occurs, TagHits, RelatedTags;
    var info := n.registry[name];
    ContainsIs(lower(info.description), lower(intent));
    ContainsIs(lower(info.category), lower(intent));
    HitsAreTags(lower, intent, info.tags);
  }

  // ----- the answers -----

  /** What the query of the network object returns. */
  function Answers(n: Network, lower: string -> string, intent: string, limit: int): seq<Answer> {
    AnswersFor(n, Search(n, lower, intent, limit))
  }

  /** More points, or as many and registered earlier. */
  ghost predicate Ahead(n: Network, lower: string -> string, intent: string, f: string, g: string)
    requires f in n.registry && g in n.registry
  {
    || Points(n, lower, intent, f) > Points(n, lower, intent, g)
    || (Points(n, lower, intent, f) == Points(n, lower, intent, g) && Earlier(n.order, f, g))
  }

  lemma HitsHavePoints(n: Network, lower: string -> string, intent: string, limit: nat)
    requires Consistent(n)
    ensures var hits := Search(n, lower, intent, limit);
            && |hits| <= limit
            && (forall h | h in hits :: h.name in n.registry && h.score == Points(n, lower, intent, h.name) && h.score > 0)
            && forall i, j | 0 <= i < j < |hits| :: hits[i].name in n.registry && hits[j].name in n.registry && Ahead(n, lower, intent, hits[i].name, hits[j].name)
  {
    hide Search, ScoreOf, Points, Earlier;
    var hits := Search(n, lower, intent, limit);
    HitsAreScored(n, lower, intent, limit);
    forall h | h in hits
      ensures h.name in n.registry && h.score == Points(n, lower, intent, h.name) && h.score > 0
    {
      ScoreIsPoints(n, lower, intent, h.name);
    }
    forall i, j | 0 <= i < j < |hits|
      ensures hits[i].name in n.registry && hits[j].name in n.registry && Ahead(n, lower, intent, hits[i].name, hits[j].name)
    {
      assert hits[i] in hits && hits[j] in hits && RanksBefore(n, hits[i], hits[j]);
    }
  }

  lemma HitsAreScored(n: Network, lower: string -> string, intent: string, limit: nat)
    ensures var r := Search(n, lower, intent, limit);
            && |r| <= limit
            && (forall i, j | 0 <= i < j < |r| :: RanksBefore(n, r[i], r[j]))
            && forall g | g in r :: g.name in n.order && g.score == ScoreOf(n, lower, lower(intent), g.name) && g.score > 0
  {
    hide Sort, Scored, RanksBefore, ScoreOf;
    var s := Scored(n, lower, lower(intent), n.order);
    var sorted := Sort(ScoreKey, s);
    var r := Search(n, lower, intent, limit);
    ScoredMembers(n, lower, lower(intent), n.order);
    SortKeepsElements(ScoreKey, s);
    forall i: nat, j: nat | i < j < |sorted|
      ensures RanksBefore(n, sorted[i], sorted[j])
    {
      SortedRanks(n, lower, lower(intent), i, j);
    }
    assert forall g | g in r :: g in sorted;
  }

  /** Every answer is a registered function with its entry and a tenth of its points as relevance; they come in order of
      points, the earlier registered first among equals. */
  lemma {:induction false} AnswersAreRanked(n: Network, lower: string -> string, intent: string, limit: nat)
    requires Consistent(n)
    ensures var r := Answers(n, lower, intent, limit);
            && |r| <= limit
            && (forall a | a in r :: a.name in n.registry && a.info == n.registry[a.name] && Points(n, lower, intent, a.name) > 0
                                     && a.relevance == Points(n, lower, intent, a.name) as real / 10.0)
            && forall i, j | 0 <= i < j < |r| :: r[i].name in n.registry && r[j].name in n.registry && Ahead(n, lower, intent, r[i].name, r[j].name)
  {
    hide Search, Points, Ahead;
    HitsHavePoints(n, lower, intent, limit);
    var hits := Search(n, lower, intent, limit);
    var r := Answers(n, lower, intent, limit);
    forall a | a in r
      ensures a.name in n.registry && a.info == n.registry[a.name] && Points(n, lower, intent, a.name) > 0
      ensures a.relevance == Points(n, lower, intent, a.name) as real / 10.0
    {
      var i :| 0 <= i < |r| && r[i] == a;
      assert hits[i] in hits;
    }
  }

  /** A registered function is a candidate exactly if the intent occurs in its description or category or one of its tags
      and the intent contain one another; a candidate that is not returned stands behind `limit` others. */
  lemma {:induction false} CandidatesAreAnswered(n: Network, lower: string -> string, intent: string, limit: nat, f: string)
    requires Consistent(n) && f in n.registry
    ensures Points(n, lower, intent, f) > 0
            <==> || InDescription(n, lower, intent, f) || InCategory(n, lower, intent, f)
                 || exists tag :: tag in n.registry[f].tags && Related(lower, intent, tag)
    ensures var r := Answers(n, lower, intent, limit);
            Points(n, lower, intent, f) > 0 && (forall a | a in r :: a.name != f)
            ==> |r| == limit && forall a | a in r :: a.name in n.registry && Ahead(n, lower, intent, a.name, f)
  {
    hide Search, ScoreOf, Earlier, Related, InDescription, InCategory, RanksBefore;
    SomeTagCounts(lower, intent, n.registry[f].tags);
    if Points(n, lower, intent, f) > 0 {
      ScoreIsPoints(n, lower, intent, f);
      CandidateIsHit(n, lower, intent, limit, f);
    }
  }

  lemma SomeTagCounts(lower: string -> string, intent: string, tags: seq<string>)
    ensures |RelatedTags(lower, intent, tags)| > 0 <==> exists tag :: tag in tags && Related(lower, intent, tag)
  {
    hide Related;
    var places := RelatedTags(lower, intent, tags);
    if tag :| tag in tags && Related(lower, intent, tag) {
      var i :| 0 <= i < |tags| && tags[i] == tag;
      assert i in places;
    }
    if places != {} {
      var i :| i in places;
      assert tags[i] in tags && Related(lower, intent, tags[i]);
    }
  }

  lemma CandidateIsHit(n: Network, lower: string -> string, intent: string, limit: nat, f: string)
    requires Consistent(n) && f in n.registry && Points(n, lower, intent, f) > 0
    ensures var r := Answers(n, lower, intent, limit);
            (forall a | a in r :: a.name != f) ==> |r| == limit && forall a | a in r :: a.name in n.registry && Ahead(n, lower, intent, a.name, f)
  {
    hide Search, ScoreOf, Points, Earlier;
    ScoreIsPoints(n, lower, intent, f);
    HitsHavePoints(n, lower, intent, limit);
    var h := Hit(f, Points(n, lower, intent, f));
    SearchIsStableTop(n, lower, intent, limit, h);
    var hits, r := Search(n, lower, intent, limit), Answers(n, lower, intent, limit);
    if h in hits {
      var i :| 0 <= i < |hits| && hits[i] == h;
      assert r[i] in r && r[i].name == f;
    }
    forall a | a in r && h !in hits
      ensures a.name in n.registry && Ahead(n, lower, intent, a.name, f)
    {
      var i :| 0 <= i < |r| && r[i] == a;
      assert hits[i] in hits && RanksBefore(n, hits[i], h);
    }
  }

  // ----- what weighs more -----

  /** A function with more points is returned in front of one with fewer. */
  lemma {:induction false} BetterComesFirst(n: Network, lower: string -> string, intent: string, limit: nat, f: string, g: string, i: nat)
    requires Consistent(n) && f in n.registry && g in n.registry && Points(n, lower, intent, f) > Points(n, lower, intent, g)
    requires i < |Answers(n, lower, intent, limit)| && Answers(n, lower, intent, limit)[i].name == g
    ensures exists j :: 0 <= j < i && Answers(n, lower, intent, limit)[j].name == f
  {
    hide Answers, Points, InDescription, InCategory, Related;
    var r := Answers(n, lower, intent, limit);
    AnswersAreRanked(n, lower, intent, limit);
    CandidatesAreAnswered(n, lower, intent, limit, f);
    assert r[i] in r;
    if a :| a in r && a.name == f {
      var j :| 0 <= j < |r| && r[j] == a;
      assert i < j ==> Ahead(n, lower, intent, g, f);
      OneAhead(n, lower, intent, f, g);
    } else {
      OneAhead(n, lower, intent, f, g);
    }
  }

  lemma OneAhead(n: Network, lower: string -> string, intent: string, f: string, g: string)
    requires f in n.registry && g in n.registry && Points(n, lower, intent, f) > Points(n, lower, intent, g)
    ensures !Ahead(n, lower, intent, g, f) && f != g
  {
  }

  /** The intent in the description counts more than one matching tag, category or not, and as much as two; one matching
      tag more counts more than the category. */
  lemma {:induction false} Weights(n: Network, lower: string -> string, intent: string, f: string, g: string)
    requires f in n.registry && g in n.registry
    ensures var tf, tg := |RelatedTags(lower, intent, n.registry[f].tags)|, |RelatedTags(lower, intent, n.registry[g].tags)|;
            var df, dg := InDescription(n, lower, intent, f), InDescription(n, lower, intent, g);
            var cf, cg := InCategory(n, lower, intent, f), InCategory(n, lower, intent, g);
            && (df && !dg && tf == 0 && tg == 1 ==> Points(n, lower, intent, f) > Points(n, lower, intent, g))
            && (df && !dg && tf == 0 && tg == 2 && cf == cg ==> Points(n, lower, intent, f) == Points(n, lower, intent, g))
            && (df == dg && tf == tg + 1 && !cf && cg ==> Points(n, lower, intent, f) > Points(n, lower, intent, g))
            && (df && !dg && tf == 0 && tg == 0 && !cf && cg ==> Points(n, lower, intent, f) > Points(n, lower, intent, g))
  {
  }

  /** With a negative limit the last candidates are left off, as many as the limit says. */
  lemma {:induction false} NegativeLimit(n: Network, lower: string -> string, intent: string, limit: nat, k: int)
    requires k > 0 && Consistent(n) && limit >= |n.order|
    ensures var all, r := Answers(n, lower, intent, limit), Answers(n, lower, intent, -k);
            r == if k <= |all| then all[..|all| - k] else []
  {
    hide Scored, Sort;
    var s := Scored(n, lower, lower(intent), n.order);
    ScoredIsNoLonger(n, lower, lower(intent), n.order);
    SortIsPermutation(ScoreKey, s);
  }

  lemma {:induction false} ScoredIsNoLonger(n: Network, lower: string -> string, intent: string, order: seq<string>)
    ensures |Scored(n, lower, intent, order)| <= |order|
  {
    hide ScoreOf;
    if order != [] {
      ScoredIsNoLonger(n, lower, intent, order[..|order| - 1]);
    }
  }

  // ----- the words that stand for a tag or a category -----

  /** One of the words occurs in the text. */
  ghost predicate Mentioned(text: string, words: seq<string>) {
    exists word :: word in words && Occurs(word, text)
  }

  lemma MentionsIs(text: string, k: Keywords)
    ensures Mentions(text, k) <==> Mentioned(text, k.words)
  {
    hide Occurs, Contains;
    forall word
      ensures Contains(text, word) <==> Occurs(word, text)
    {
      ContainsIs(text, word);
    }
  }

  /** The words for a tag, as the source lists them. */
  ghost function WordsFor(tag: string): seq<string> {
    match tag
    case "storage" => ["store", "save", "persist", "write"]
    case "retrieval" => ["get", "load", "read", "fetch", "retrieve"]
    case "analysis" => ["analyze", "evaluate", "assess", "calculate"]
    case "creation" => ["create", "generate", "make", "build"]
    case "modification" => ["modify", "update", "change", "edit"]
    case "search" => ["search", "find", "query", "lookup"]
    case "reasoning" => ["think", "reason", "ponder", "reflect"]
    case "memory" => ["memory", "remember", "recall", "memorize"]
    case "file_ops" => ["file", "directory", "path"]
    case "autonomous" => ["autonomous", "self", "auto"]
    case "personality" => ["personality", "trait", "behavior"]
    case "blockchain" => ["blockchain", "token", "supply", "wallet", "transaction"]
    case _ => []
  }

  lemma {:induction false} TagsInExactly(text: string, table: seq<Keywords>, tag: string)
    ensures tag in TagsIn(text, table) <==> exists i :: 0 <= i < |table| && table[i].tag == tag && Mentions(text, table[i])
  {
    hide Mentions;
    if table != [] {
      var n := |table| - 1;
      TagsInExactly(text, table[..n], tag);
      if i :| 0 <= i < |table| && table[i].tag == tag && Mentions(text, table[i]) {
        assert i < n ==> table[..n][i] == table[i];
      }
      if i :| 0 <= i < n && table[..n][i].tag == tag && Mentions(text, table[..n][i]) {
        assert table[i].tag == tag && Mentions(text, table[i]);
      }
    }
  }

  lemma TableIsWords(tag: string)
    ensures forall i | 0 <= i < |TAG_KEYWORDS| && TAG_KEYWORDS[i].tag == tag :: TAG_KEYWORDS[i].words == WordsFor(tag)
    ensures WordsFor(tag) != [] ==> exists i :: 0 <= i < |TAG_KEYWORDS| && TAG_KEYWORDS[i].tag == tag
  {
    if WordsFor(tag) != [] {
      assert TAG_KEYWORDS[0].tag == tag || TAG_KEYWORDS[1].tag == tag || TAG_KEYWORDS[2].tag == tag || TAG_KEYWORDS[3].tag == tag
             || TAG_KEYWORDS[4].tag == tag || TAG_KEYWORDS[5].tag == tag || TAG_KEYWORDS[6].tag == tag || TAG_KEYWORDS[7].tag == tag
             || TAG_KEYWORDS[8].tag == tag || TAG_KEYWORDS[9].tag == tag || TAG_KEYWORDS[10].tag == tag || TAG_KEYWORDS[11].tag == tag;
    }
  }

  /** A tag is extracted exactly if one of its words occurs in the lower-cased name and description; `general` exactly
      if no tag is. */
  lemma {:induction false} TagsExactly(lower: string -> string, name: string, description: string, tag: string)
    requires tag != "general"
    ensures tag in ExtractTags(lower, name, description) <==> Mentioned(lower(name + " " + description), WordsFor(tag))
    ensures "general" in ExtractTags(lower, name, description)
            <==> forall other :: !Mentioned(lower(name + " " + description), WordsFor(other))
  {
    hide TagsIn, Mentions, Mentioned;
    var text := lower(name + " " + description);
    forall t
      ensures t in TagsIn(text, TAG_KEYWORDS) <==> Mentioned(text, WordsFor(t))
    {
      TagIsMentioned(text, t);
    }
    NothingForGeneral(text);
    assert tag in ["general"] <==> tag == "general";
    assert TagsIn(text, TAG_KEYWORDS) != [] ==> TagsIn(text, TAG_KEYWORDS)[0] in TagsIn(text, TAG_KEYWORDS);
  }

  lemma NothingForGeneral(text: string)
    ensures !Mentioned(text, WordsFor("general"))
  {
  }

  lemma {:induction false} TagIsMentioned(text: string, t: string)
    ensures t in TagsIn(text, TAG_KEYWORDS) <==> Mentioned(text, WordsFor(t))
  {
    hide TagsIn, Mentions, Occurs;
    TagsInExactly(text, TAG_KEYWORDS, t);
    TableIsWords(t);
    forall i | 0 <= i < |TAG_KEYWORDS|
      ensures Mentions(text, TAG_KEYWORDS[i]) <==> Mentioned(text, TAG_KEYWORDS[i].words)
    {
      MentionsIs(text, TAG_KEYWORDS[i]);
    }
  }

  /** The category of a function is the first of these whose words occur in its lower-cased name, or `utility`. */
  lemma {:induction false} CategoryExactly(lower: string -> string, name: string)
    ensures var text := lower(name);
            Categorize(lower, name)
            == if Mentioned(text, ["memory", "store", "recall", "remember"]) then "memory"
               else if Mentioned(text, ["file", "write", "read", "create"]) then "file"
               else if Mentioned(text, ["search", "query", "find", "lookup"]) then "search"
               else if Mentioned(text, ["chain", "cot", "pipeline", "think"]) then "reasoning"
               else if Mentioned(text, ["personality", "trait", "evolve", "behavioral"]) then "personality"
               else if Mentioned(text, ["analyze", "evaluate", "assess"]) then "analysis"
               else if Mentioned(text, ["blockchain", "token", "supply", "wallet"]) then "blockchain"
               else "utility"
  {
    hide Mentions, Mentioned;
    var text := lower(name);
    forall i | 0 <= i < |CATEGORY_KEYWORDS|
      ensures Mentions(text, CATEGORY_KEYWORDS[i]) <==> Mentioned(text, CATEGORY_KEYWORDS[i].words)
    {
      MentionsIs(text, CATEGORY_KEYWORDS[i]);
    }
    FirstOfSeven(text, CATEGORY_KEYWORDS);
  }

  lemma {:induction false} FirstOfSeven(text: string, t: seq<Keywords>)
    requires |t| == 7
    ensures FirstMention(text, t)
         == if Mentions(text, t[0]) then t[0].tag else if Mentions(text, t[1]) then t[1].tag else if Mentions(text, t[2]) then t[2].tag
            else if Mentions(text, t[3]) then t[3].tag else if Mentions(text, t[4]) then t[4].tag else if Mentions(text, t[5]) then t[5].tag
            else if Mentions(text, t[6]) then t[6].tag else "utility"
  {
    hide Mentions;
    FirstStep(text, t, 0, t[0..]);
    FirstStep(text, t, 1, t[1..]);
    FirstStep(text, t, 2, t[2..]);
    FirstStep(text, t, 3, t[3..]);
    FirstStep(text, t, 4, t[4..]);
    FirstStep(text, t, 5, t[5..]);
    FirstStep(text, t, 6, t[6..]);
    assert t[0..] == t && t[7..] == [];
    assert FirstMention(text, []) == "utility";
  }

  lemma {:induction false} FirstStep(text: string, t: seq<Keywords>, i: nat, rest: seq<Keywords>)
    requires i < |t| && rest == t[i..]
    ensures FirstMention(text, rest) == if Mentions(text, t[i]) then t[i].tag else FirstMention(text, t[i + 1..])
  {
    hide Mentions;
    assert rest[1..] == t[i + 1..];
  }
}
