/** Looking functions up: by category, by keywords, and registering a whole brain system's tools. `lower` is
    Python's `str.lower`. */
module CapabilitySearch {
  import opened StableSort
  import opened CapabilityIndex

  // ----- categories -----

  /** `list_functions_by_category` */
  function ByCategory(n: Network, category: string): seq<string> {
    Filter(n.order, HasCategory(n.registry, category))
  }

  /** The lists of several categories, one after the other. */
  function Buckets(n: Network, categories: seq<string>): seq<string> {
    if categories == [] then []
    else Buckets(n, categories[..|categories| - 1]) + ByCategory(n, categories[|categories| - 1])
  }

  lemma {:induction false} FilterSplits(s: seq<string>, p: string -> bool, q: string -> bool, r: string -> bool)
    requires forall x | x in s :: (r(x) <==> p(x) || q(x)) && !(p(x) && q(x))
    ensures multiset(Filter(s, r)) == multiset(Filter(s, p)) + multiset(Filter(s, q))
  {
    if s != [] {
      FilterSplits(s[..|s| - 1], p, q, r);
    }
  }

  function InCategories(registry: map<string, Info>, categories: seq<string>): string -> bool {
    (name: string) => name in registry && registry[name].category in categories
  }

  lemma {:induction false} BucketsHold(n: Network, categories: seq<string>)
    requires Distinct(categories)
    ensures multiset(Buckets(n, categories)) == multiset(Filter(n.order, InCategories(n.registry, categories)))
  {
    if categories == [] {
      FilterNone(n.order, InCategories(n.registry, []));
    } else {
      var k := |categories| - 1;
      BucketsHold(n, categories[..k]);
      assert categories == categories[..k] + [categories[k]];
      FilterSplits(n.order, InCategories(n.registry, categories[..k]), HasCategory(n.registry, categories[k]), InCategories(n.registry, categories));
    }
  }

  lemma {:induction false} FilterNone(s: seq<string>, p: string -> bool)
    requires forall x :: !p(x)
    ensures Filter(s, p) == []
  {
    if s != [] {
      FilterNone(s[..|s| - 1], p);
    }
  }

  lemma {:induction false} FilterAll(s: seq<string>, p: string -> bool)
    requires forall x | x in s :: p(x)
    ensures Filter(s, p) == s
  {
    if s != [] {
      FilterAll(s[..|s| - 1], p);
    }
  }

  /** The category lists partition the registry: each function is in the list of its own category and in no
      other, and the lists of all categories together hold every function exactly once. */
  lemma {:induction false} CategoriesPartition(calls: seq<Call>, categories: seq<string>)
    requires Distinct(categories) && forall name | name in After(calls).registry :: After(calls).registry[name].category in categories
    ensures var n := After(calls);
            && (forall name, category | name in n.registry :: name in ByCategory(n, category) <==> n.registry[name].category == category)
            && multiset(Buckets(n, categories)) == multiset(n.order) && Distinct(n.order)
            && forall name :: name in n.order <==> name in n.registry
  {
    hide After, Filter, Buckets;
    var n := After(calls);
    HistoryIsSound(calls);
    BucketsHold(n, categories);
    FilterAll(n.order, InCategories(n.registry, categories));
    forall name, category | name in n.registry
      ensures name in ByCategory(n, category) <==> n.registry[name].category == category
    {
      FilterMembers(n.order, HasCategory(n.registry, category));
    }
  }

  // ----- keyword search -----

  /** `needle in haystack` */
  predicate Contains(haystack: string, needle: string) {
    exists i | 0 <= i <= |haystack| :: StartsAt(haystack, needle, i)
  }

  predicate StartsAt(haystack: string, needle: string, i: nat) {
    i + |needle| <= |haystack| && haystack[i..i + |needle|] == needle
  }

  predicate TagMatches(lower: string -> string, intent: string, tag: string) {
    Contains(intent, lower(tag)) || Contains(lower(tag), intent)
  }

  function TagHits(lower: string -> string, intent: string, tags: seq<string>): nat {
    if tags == [] then 0
    else if TagMatches(lower, intent, tags[|tags| - 1]) then TagHits(lower, intent, tags[..|tags| - 1]) + 1
    else TagHits(lower, intent, tags[..|tags| - 1])
  }

  function Score(lower: string -> string, intent: string, info: Info): nat {
    (if Contains(lower(info.description), intent) then 10 else 0)
    + 5 * TagHits(lower, intent, info.tags)
    + (if Contains(lower(info.category), intent) then 3 else 0)
  }

  datatype Hit = Hit(name: string, score: nat)

  function ScoreKey(h: Hit): Key {
    Key(0 - h.score, 0.0)
  }

  function ScoreOf(n: Network, lower: string -> string, intent: string, name: string): nat {
    if name in n.registry then Score(lower, intent, n.registry[name]) else 0
  }

  /** The functions with a positive score, in registration order. */
  function Scored(n: Network, lower: string -> string, intent: string, order: seq<string>): seq<Hit> {
    if order == [] then []
    else
      var name := order[|order| - 1];
      var before := Scored(n, lower, intent, order[..|order| - 1]);
      if ScoreOf(n, lower, intent, name) > 0 then before + [Hit(name, ScoreOf(n, lower, intent, name))] else before
  }

  /** `s[:limit]` */
  function Cut<T>(s: seq<T>, limit: int): seq<T> {
    if limit >= |s| then s
    else if limit >= 0 then s[..limit]
    else if |s| + limit >= 0 then s[..|s| + limit]
    else []
  }

  /** The keyword branch of `query_capabilities`. */
  function Search(n: Network, lower: string -> string, intent: string, limit: int): seq<Hit> {
    Cut(Sort(ScoreKey, Scored(n, lower, lower(intent), n.order)), limit)
  }

  lemma {:induction false} ScoredMembers(n: Network, lower: string -> string, intent: string, order: seq<string>)
    ensures forall h :: h in Scored(n, lower, intent, order) <==> h.name in order && h.score == ScoreOf(n, lower, intent, h.name) && h.score > 0
  {
    hide ScoreOf;
    if order != [] {
      ScoredMembers(n, lower, intent, order[..|order| - 1]);
      assert order == order[..|order| - 1] + [order[|order| - 1]];
    }
  }

  lemma {:induction false} ScoredKeepsOrder(n: Network, lower: string -> string, intent: string, order: seq<string>,
          i: nat, j: nat)
    requires i < j < |Scored(n, lower, intent, order)|
    ensures var s := Scored(n, lower, intent, order); Earlier(order, s[i].name, s[j].name)
  {
    hide ScoreOf, Earlier;
    var k := |order| - 1;
    var before := Scored(n, lower, intent, order[..k]);
    assert order == order[..k] + [order[k]];
    if j < |before| {
      ScoredKeepsOrder(n, lower, intent, order[..k], i, j);
      EarlierStays(order[..k], order[k], before[i].name, before[j].name);
    } else {
      ScoredMembers(n, lower, intent, order[..k]);
      assert before[i] in before;
      EarlierThanNew(order[..k], order[k], before[i].name);
    }
  }

  /** A better score, or the same and registered earlier. */
  ghost predicate RanksBefore(n: Network, x: Hit, y: Hit) {
    x.score > y.score || (x.score == y.score && Earlier(n.order, x.name, y.name))
  }

  lemma {:induction false} SortedRanks(n: Network, lower: string -> string, intent: string, i: nat, j: nat)
    requires i < j < |Sort(ScoreKey, Scored(n, lower, intent, n.order))|
    ensures var r := Sort(ScoreKey, Scored(n, lower, intent, n.order)); RanksBefore(n, r[i], r[j])
  {
    hide Sort, Scored;
    var s := Scored(n, lower, intent, n.order);
    var r := Sort(ScoreKey, s);
    SortKeepsStableOrder(ScoreKey, s);
    assert Less(ScoreKey(r[i]), ScoreKey(r[j])) || (ScoreKey(r[i]) == ScoreKey(r[j]) && Earlier(s, r[i], r[j]));
    if !Less(ScoreKey(r[i]), ScoreKey(r[j])) {
      var a, b :| 0 <= a < b < |s| && s[a] == r[i] && s[b] == r[j];
      ScoredKeepsOrder(n, lower, intent, n.order, a, b);
    }
  }

  /** The search returns the best `limit` of the functions with a positive score, best first, the earlier
      registered first among equals. */
  lemma SearchIsStableTop(n: Network, lower: string -> string, intent: string, limit: nat, h: Hit)
    requires h.name in n.order && h.score == ScoreOf(n, lower, lower(intent), h.name) && h.score > 0
    ensures var r := Search(n, lower, intent, limit);
            && |r| <= limit
            && (forall i, j | 0 <= i < j < |r| :: RanksBefore(n, r[i], r[j]))
            && (forall g | g in r :: g.name in n.order && g.score == ScoreOf(n, lower, lower(intent), g.name) && g.score > 0)
            && (h in r || (|r| == limit && forall g | g in r :: RanksBefore(n, g, h)))
  {
    hide Sort, Scored, RanksBefore, ScoreOf;
    var s := Scored(n, lower, lower(intent), n.order);
    var sorted := Sort(ScoreKey, s);
    var r := Search(n, lower, intent, limit);
    ScoredMembers(n, lower, lower(intent), n.order);
    SortKeepsElements(ScoreKey, s);
    forall i: nat, j: nat | i < j < |sorted|
      ensures RanksBefore(n, sorted[i], sorted[j])
    {
      SortedRanks(n, lower, lower(intent), i, j);
    }
    assert forall g | g in r :: g in sorted;
    assert h in s;
    assert h in sorted;
    var k :| 0 <= k < |sorted| && sorted[k] == h;
    if k < |r| {
      assert r[k] == h;
    }
  }

  // ----- registering a brain system's tools -----

  datatype Keywords = Keywords(tag: string, words: seq<string>)

  const TAG_KEYWORDS := [
    Keywords("storage", ["store", "save", "persist", "write"]),
    Keywords("retrieval", ["get", "load", "read", "fetch", "retrieve"]),
    Keywords("analysis", ["analyze", "evaluate", "assess", "calculate"]),
    Keywords("creation", ["create", "generate", "make", "build"]),
    Keywords("modification", ["modify", "update", "change", "edit"]),
    Keywords("search", ["search", "find", "query", "lookup"]),
    Keywords("reasoning", ["think", "reason", "ponder", "reflect"]),
    Keywords("memory", ["memory", "remember", "recall", "memorize"]),
    Keywords("file_ops", ["file", "directory", "path"]),
    Keywords("autonomous", ["autonomous", "self", "auto"]),
    Keywords("personality", ["personality", "trait", "behavior"]),
    Keywords("blockchain", ["blockchain", "token", "supply", "wallet", "transaction"])]

  const CATEGORY_KEYWORDS := [
    Keywords("memory", ["memory", "store", "recall", "remember"]),
    Keywords("file", ["file", "write", "read", "create"]),
    Keywords("search", ["search", "query", "find", "lookup"]),
    Keywords("reasoning", ["chain", "cot", "pipeline", "think"]),
    Keywords("personality", ["personality", "trait", "evolve", "behavioral"]),
    Keywords("analysis", ["analyze", "evaluate", "assess"]),
    Keywords("blockchain", ["blockchain", "token", "supply", "wallet"])]

  predicate Mentions(text: string, k: Keywords) {
    exists word | word in k.words :: Contains(text, word)
  }

  function TagsIn(text: string, table: seq<Keywords>): seq<string> {
    if table == [] then []
    else
      var before := TagsIn(text, table[..|table| - 1]);
      if Mentions(text, table[|table| - 1]) then before + [table[|table| - 1].tag] else before
  }

  /** `_extract_tags` */
  function ExtractTags(lower: string -> string, name: string, description: string): seq<string> {
    var tags := TagsIn(lower(name + " " + description), TAG_KEYWORDS);
    if tags == [] then ["general"] else tags
  }

  function FirstMention(text: string, table: seq<Keywords>): string {
    if table == [] then "utility"
    else if Mentions(text, table[0]) then table[0].tag
    else FirstMention(text, table[1..])
  }

  /** `_categorize_function` */
  function Categorize(lower: string -> string, name: string): string {
    FirstMention(lower(name), CATEGORY_KEYWORDS)
  }

  /** A tool's name and the first line of its documentation. */
  datatype Tool = Tool(name: string, description: string)

  function CallFor(lower: string -> string, t: Tool): Call {
    Call(t.name, Info(t.description, Categorize(lower, t.name), ExtractTags(lower, t.name, t.description)))
  }

  function CallsFor(lower: string -> string, tools: seq<Tool>): seq<Call> {
    seq(|tools|, i requires 0 <= i < |tools| => CallFor(lower, tools[i]))
  }

  lemma {:induction false} TagsInTable(text: string, table: seq<Keywords>)
    requires forall i, j | 0 <= i < j < |table| :: table[i].tag != table[j].tag
    ensures Distinct(TagsIn(text, table)) && forall tag | tag in TagsIn(text, table) :: exists i :: 0 <= i < |table| && table[i].tag == tag
  {
    if table != [] {
      var n := |table| - 1;
      TagsInTable(text, table[..n]);
      forall tag | tag in TagsIn(text, table[..n])
        ensures tag != table[n].tag && exists i :: 0 <= i < |table| && table[i].tag == tag
      {
        var i :| 0 <= i < n && table[..n][i].tag == tag;
        assert table[i].tag == tag;
      }
      assert table[n].tag !in TagsIn(text, table[..n]);
      DistinctPlus(TagsIn(text, table[..n]), table[n].tag);
    }
  }

  lemma DistinctPlus(s: seq<string>, x: string)
    requires Distinct(s) && x !in s
    ensures Distinct(s + [x])
  {
  }

  lemma TagTableIsDistinct()
    ensures forall i, j | 0 <= i < j < |TAG_KEYWORDS| :: TAG_KEYWORDS[i].tag != TAG_KEYWORDS[j].tag
  {
  }

  lemma ExtractedTagsAreGood(lower: string -> string, name: string, description: string)
    ensures var tags := ExtractTags(lower, name, description); Distinct(tags) && tags != []
  {
    hide TagsIn;
    TagTableIsDistinct();
    TagsInTable(lower(name + " " + description), TAG_KEYWORDS);
  }

  /** The tools of a brain system have different names, so after registering them once into an empty network
      index and scan agree. */
  lemma AutoRegistrationAgrees(lower: string -> string, tools: seq<Tool>)
    requires forall i, j | 0 <= i < j < |tools| :: tools[i].name != tools[j].name
    ensures Agrees(After(CallsFor(lower, tools)))
  {
    hide After, Agrees, Distinct, ExtractTags, Categorize;
    var calls := CallsFor(lower, tools);
    forall i | 0 <= i < |calls|
      ensures Distinct(calls[i].info.tags)
    {
      ExtractedTagsAreGood(lower, tools[i].name, tools[i].description);
    }
    FreshNamesAgree(calls);
  }

  /** Registering the same tools a second time breaks the agreement as soon as there is one. */
  lemma AutoRegistrationTwice(lower: string -> string, tools: seq<Tool>)
    requires (forall i, j | 0 <= i < j < |tools| :: tools[i].name != tools[j].name) && tools != []
    ensures !Agrees(After(CallsFor(lower, tools) + CallsFor(lower, tools)))
  {
    hide Agrees, ExtractTags, Categorize, After;
    var once := CallsFor(lower, tools);
    var twice := once + once;
    var n := |tools|;
    HistoryAgreesExactly(twice);
    assert twice[..n] == once == once[..n] && twice[n] == CallFor(lower, tools[0]) == once[0];
    FirstIsStillThere(once, n);
    ExtractedTagsAreGood(lower, tools[0].name, tools[0].description);
    assert !KeepsIndex(After(twice[..n]), twice[n]);
  }

  lemma {:induction false} FirstIsStillThere(calls: seq<Call>, n: nat)
    requires 0 < n <= |calls| && forall i, j | 0 <= i < j < |calls| :: calls[i].name != calls[j].name
    ensures var r := After(calls[..n]).registry; calls[0].name in r && r[calls[0].name] == calls[0].info
  {
    assert calls[..n][..n - 1] == calls[..n - 1];
    if n > 1 {
      FirstIsStillThere(calls, n - 1);
    } else {
      assert calls[..1][..0] == [];
    }
  }
}
