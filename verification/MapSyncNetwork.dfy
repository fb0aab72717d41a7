/** The network object: its dictionaries are updated in place. A dictionary keeps its keys in insertion order,
    which `registryOrder` stands for. */
module MapSyncNetwork {
  import opened StableSort
  import opened CapabilityIndex
  import opened CapabilitySearch

  /** A search result: the entry, its name, and the score as a relevance. */
  datatype Answer = Answer(name: string, info: Info, relevance: real)

  function AnswerFor(n: Network, h: Hit): Answer {
    Answer(h.name, if h.name in n.registry then n.registry[h.name] else Info("", "", []), h.score as real / 10.0)
  }

  function AnswersFor(n: Network, hits: seq<Hit>): seq<Answer> {
    seq(|hits|, i requires 0 <= i < |hits| => AnswerFor(n, hits[i]))
  }

  class MapSyncNetwork {
    var functionRegistry: map<string, Info>
    var registryOrder: seq<string>
    var capabilityIndex: map<string, seq<string>>

    function State(): Network
      reads this
    {
      Network(registryOrder, functionRegistry, capabilityIndex)
    }

    constructor ()
      ensures State() == EMPTY
    {
      functionRegistry, registryOrder, capabilityIndex := map[], [], map[];
    }

    method RegisterFunction(name: string, description: string, category: string, tags: seq<string>)
      modifies this
      ensures State() == Register(old(State()), Call(name, Info(description, category, tags)))
    {
      if name !in functionRegistry {
        registryOrder := registryOrder + [name];
      }
      functionRegistry := functionRegistry[name := Info(description, category, tags)];
      ghost var index := capabilityIndex;
      for i := 0 to |tags|
        invariant capabilityIndex == Indexed(index, name, tags[..i])
        invariant functionRegistry == old(functionRegistry)[name := Info(description, category, tags)]
        invariant registryOrder == if name in old(functionRegistry) then old(registryOrder) else old(registryOrder) + [name]
      {
        var tag := tags[i];
        assert tags[..i + 1][..i] == tags[..i];
        if tag !in capabilityIndex {
          capabilityIndex := capabilityIndex[tag := []];
        }
        capabilityIndex := capabilityIndex[tag := capabilityIndex[tag] + [name]];
      }
      assert tags[..|tags|] == tags;
    }

    method AutoRegisterFromBrainSystem(lower: string -> string, tools: seq<Tool>)
      modifies this
      ensures State() == Registered(old(State()), CallsFor(lower, tools))
    {
      ghost var calls := CallsFor(lower, tools);
      for i := 0 to |tools|
        invariant State() == Registered(old(State()), calls[..i])
      {
        var t := tools[i];
        assert calls[..i + 1][..i] == calls[..i];
        RegisterFunction(t.name, t.description, Categorize(lower, t.name), ExtractTags(lower, t.name, t.description));
      }
      assert calls[..|tools|] == calls;
    }

    method ListFunctionsByTag(tag: string) returns (names: seq<string>)
      ensures names == ByTag(State(), tag)
    {
      names := if tag in capabilityIndex then capabilityIndex[tag] else [];
    }

    method ListFunctionsByCategory(category: string) returns (names: seq<string>)
      ensures names == ByCategory(State(), category)
    {
      names := [];
      for i := 0 to |registryOrder|
        invariant names == Filter(registryOrder[..i], HasCategory(functionRegistry, category))
      {
        assert registryOrder[..i + 1][..i] == registryOrder[..i];
        if HasCategory(functionRegistry, category)(registryOrder[i]) {
          names := names + [registryOrder[i]];
        }
      }
      assert registryOrder[..|registryOrder|] == registryOrder;
    }

    /** Without embeddings: every function is scored, the list is sorted, and the best are returned. */
    method QueryCapabilities(lower: string -> string, intent: string, limit: int) returns (results: seq<Answer>)
      requires forall name | name in registryOrder :: name in functionRegistry
      ensures results == AnswersFor(State(), Search(State(), lower, intent, limit))
    {
      var scored := CollectScored(lower, lower(intent));
      scored := Sort(ScoreKey, scored);
      var best := Cut(scored, limit);
      results := AnswersOf(best);
    }

    method AnswersOf(best: seq<Hit>) returns (results: seq<Answer>)
      ensures results == AnswersFor(State(), best)
    {
      results := [];
      for i := 0 to |best|
        invariant results == AnswersFor(State(), best[..i])
      {
        results := results + [AnswerFor(State(), best[i])];
      }
      assert best[..|best|] == best;
    }

    method CollectScored(lower: string -> string, intent: string) returns (scored: seq<Hit>)
      requires forall name | name in registryOrder :: name in functionRegistry
      ensures scored == Scored(State(), lower, intent, registryOrder)
    {
      scored := [];
      for i := 0 to |registryOrder|
        invariant scored == Scored(State(), lower, intent, registryOrder[..i])
      {
        var name := registryOrder[i];
        assert registryOrder[..i + 1][..i] == registryOrder[..i];
        var score := ScoreFunction(lower, intent, functionRegistry[name]);
        if score > 0 {
          scored := scored + [Hit(name, score)];
        }
      }
      assert registryOrder[..|registryOrder|] == registryOrder;
    }

    method ScoreFunction(lower: string -> string, intent: string, info: Info) returns (score: nat)
      ensures score == Score(lower, intent, info)
    {
      score := 0;
      if Contains(lower(info.description), intent) {
        score := score + 10;
      }
      ghost var base := score;
      for i := 0 to |info.tags|
        invariant score == base + 5 * TagHits(lower, intent, info.tags[..i])
      {
        assert info.tags[..i + 1][..i] == info.tags[..i];
        if TagMatches(lower, intent, info.tags[i]) {
          score := score + 5;
        }
      }
      assert info.tags[..|info.tags|] == info.tags;
      if Contains(lower(info.category), intent) {
        score := score + 3;
      }
    }
  }
}
