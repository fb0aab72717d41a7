/** The registry of functions with an index from tags to function names, category lists and keyword search. */
module CapabilityIndex {
  import opened StableSort

  datatype Info = Info(description: string, category: string, tags: seq<string>)

  /** The registry as a map with its insertion order, and the index. */
  datatype Network = Network(order: seq<string>, registry: map<string, Info>, index: map<string, seq<string>>)

  datatype Call = Call(name: string, info: Info)

  const EMPTY := Network([], map[], map[])

  function Get(index: map<string, seq<string>>, tag: string): seq<string> {
    if tag in index then index[tag] else []
  }

  /** The name is appended to the list of each tag, once for each time the tag is given. */
  function Indexed(index: map<string, seq<string>>, name: string, tags: seq<string>): map<string, seq<string>> {
    if tags == [] then index
    else
      var before := Indexed(index, name, tags[..|tags| - 1]);
      before[tags[|tags| - 1] := Get(before, tags[|tags| - 1]) + [name]]
  }

  /** Registering a name again replaces its entry in place. */
  function Register(n: Network, c: Call): Network {
    Network(if c.name in n.registry then n.order else n.order + [c.name], n.registry[c.name := c.info], Indexed(n.index, c.name, c.info.tags))
  }

  function Registered(n: Network, calls: seq<Call>): Network {
    if calls == [] then n else Register(Registered(n, calls[..|calls| - 1]), calls[|calls| - 1])
  }

  function After(calls: seq<Call>): Network {
    Registered(EMPTY, calls)
  }

  function Filter(s: seq<string>, p: string -> bool): seq<string> {
    if s == [] then []
    else if p(s[|s| - 1]) then Filter(s[..|s| - 1], p) + [s[|s| - 1]]
    else Filter(s[..|s| - 1], p)
  }

  function HasTag(registry: map<string, Info>, tag: string): string -> bool {
    (name: string) => name in registry && tag in registry[name].tags
  }

  function HasCategory(registry: map<string, Info>, category: string): string -> bool {
    (name: string) => name in registry && registry[name].category == category
  }

  /** `list_functions_by_tag` */
  function ByTag(n: Network, tag: string): seq<string> {
    Get(n.index, tag)
  }

  /** What looking through the whole registry would give, in registration order. */
  function Scan(n: Network, tag: string): seq<string> {
    Filter(n.order, HasTag(n.registry, tag))
  }

  ghost predicate Distinct(s: seq<string>) {
    forall i, j | 0 <= i < j < |s| :: s[i] != s[j]
  }

  /** The order lists the registry's names, each once. */
  ghost predicate Consistent(n: Network) {
    Distinct(n.order) && forall name :: name in n.order <==> name in n.registry
  }

  /** Every function is found under each of its current tags. */
  ghost predicate Found(n: Network) {
    forall name, tag | name in n.registry && tag in n.registry[name].tags :: name in ByTag(n, tag)
  }

  ghost predicate Agrees(n: Network) {
    forall tag :: ByTag(n, tag) == Scan(n, tag)
  }

  /** What a caller can look up before a call: no tag is given twice, and a name registered before had no
      tags, and stands behind all that have a tag it gets now. */
  ghost predicate KeepsIndex(n: Network, c: Call) {
    && Distinct(c.info.tags)
    && (c.name in n.registry ==>
          && n.registry[c.name].tags == []
          && forall i, j, tag | 0 <= i < j < |n.order| && n.order[i] == c.name && tag in c.info.tags :: !HasTag(n.registry, tag)(n.order[j]))
  }

  // ----- filters -----

  lemma {:induction false} FilterConcat(a: seq<string>, b: seq<string>, p: string -> bool)
    ensures Filter(a + b, p) == Filter(a, p) + Filter(b, p)
  {
    if b == [] {
      assert a + b == a;
    } else {
      FilterConcat(a, b[..|b| - 1], p);
      assert (a + b)[..|a + b| - 1] == a + b[..|b| - 1];
    }
  }

  lemma {:induction false} FilterSame(s: seq<string>, p: string -> bool, q: string -> bool)
    requires forall x | x in s :: p(x) == q(x)
    ensures Filter(s, p) == Filter(s, q)
  {
    if s != [] {
      FilterSame(s[..|s| - 1], p, q);
    }
  }

  lemma {:induction false} FilterMembers(s: seq<string>, p: string -> bool)
    ensures forall x :: x in Filter(s, p) <==> x in s && p(x)
  {
    if s != [] {
      FilterMembers(s[..|s| - 1], p);
      assert s == s[..|s| - 1] + [s[|s| - 1]];
    }
  }

  lemma {:induction false} FilterIsDistinct(s: seq<string>, p: string -> bool)
    requires Distinct(s)
    ensures Distinct(Filter(s, p))
  {
    if s != [] {
      FilterIsDistinct(s[..|s| - 1], p);
      FilterMembers(s[..|s| - 1], p);
    }
  }

  // ----- one call -----

  /** `name`, `k` times. */
  function Repeated(name: string, k: nat): (r: seq<string>)
    ensures |r| == k && forall i | 0 <= i < k :: r[i] == name
  {
    if k == 0 then [] else Repeated(name, k - 1) + [name]
  }

  function Count(tags: seq<string>, tag: string): nat {
    if tags == [] then 0
    else if tags[|tags| - 1] == tag then Count(tags[..|tags| - 1], tag) + 1
    else Count(tags[..|tags| - 1], tag)
  }

  lemma {:induction false} IndexedAppends(index: map<string, seq<string>>, name: string, tags: seq<string>, tag: string)
    ensures Get(Indexed(index, name, tags), tag) == Get(index, tag) + Repeated(name, Count(tags, tag))
  {
    if tags != [] {
      IndexedAppends(index, name, tags[..|tags| - 1], tag);
    }
  }

  lemma {:induction false} CountIsMembership(tags: seq<string>, tag: string)
    ensures Count(tags, tag) > 0 <==> tag in tags
  {
    if tags != [] {
      CountIsMembership(tags[..|tags| - 1], tag);
    }
  }

  lemma {:induction false} DistinctCount(tags: seq<string>, tag: string)
    requires Distinct(tags)
    ensures Count(tags, tag) == if tag in tags then 1 else 0
  {
    if tags != [] {
      var n := |tags| - 1;
      DistinctCount(tags[..n], tag);
      assert tags[n] !in tags[..n];
      assert tags == tags[..n] + [tags[n]];
    }
  }

  lemma {:induction false} CountDistinct(tags: seq<string>)
    requires forall tag :: Count(tags, tag) <= 1
    ensures Distinct(tags)
  {
    if tags != [] {
      var n := |tags| - 1;
      forall tag
        ensures Count(tags[..n], tag) <= 1
      {
        assert Count(tags, tag) <= 1;
      }
      CountDistinct(tags[..n]);
      CountIsMembership(tags[..n], tags[n]);
      assert Count(tags, tags[n]) <= 1;
      assert tags == tags[..n] + [tags[n]];
    }
  }

  lemma RegisterKeepsConsistent(n: Network, c: Call)
    requires Consistent(n)
    ensures Consistent(Register(n, c))
  {
  }

  /** In any history each function is found under its current tags. */
  lemma RegisterKeepsFound(n: Network, c: Call)
    requires Found(n)
    ensures Found(Register(n, c))
  {
    hide Indexed, Get, Repeated, Count;
    var n' := Register(n, c);
    forall name, tag | name in n'.registry && tag in n'.registry[name].tags
      ensures name in ByTag(n', tag)
    {
      IndexedAppends(n.index, c.name, c.info.tags, tag);
      CountIsMembership(c.info.tags, tag);
      var more := Repeated(c.name, Count(c.info.tags, tag));
      if name == c.name {
        assert more[0] == name;
      } else {
        assert name in ByTag(n, tag);
      }
    }
  }

  lemma {:induction false} HistoryIsSound(calls: seq<Call>)
    ensures Consistent(After(calls)) && Found(After(calls))
  {
    hide Register, Consistent, Found;
    if calls == [] {
      EmptyIsSound();
    } else {
      HistoryIsSound(calls[..|calls| - 1]);
      RegisterKeepsConsistent(After(calls[..|calls| - 1]), calls[|calls| - 1]);
      RegisterKeepsFound(After(calls[..|calls| - 1]), calls[|calls| - 1]);
    }
  }

  lemma EmptyIsSound()
    ensures Consistent(EMPTY) && Found(EMPTY) && Agrees(EMPTY)
  {
  }

  // ----- when index and scan agree -----

  /** The scan after the registration of a new name. */
  lemma ScanWithNew(n: Network, c: Call, tag: string)
    requires Consistent(n) && c.name !in n.registry
    ensures Scan(Register(n, c), tag) == Scan(n, tag) + if tag in c.info.tags then [c.name] else []
  {
    hide Indexed;
    var registry := n.registry[c.name := c.info];
    FilterSame(n.order, HasTag(n.registry, tag), HasTag(registry, tag));
    FilterConcat(n.order, [c.name], HasTag(registry, tag));
    assert [c.name][..0] == [];
  }

  /** The scan after a name at position `i` is registered again. */
  lemma ScanWithOld(n: Network, c: Call, tag: string, i: nat)
    requires Consistent(n) && i < |n.order| && n.order[i] == c.name
    ensures var before, behind := Filter(n.order[..i], HasTag(n.registry, tag)), Filter(n.order[i + 1..], HasTag(n.registry, tag));
            && Scan(n, tag) == before + (if tag in n.registry[c.name].tags then [c.name] else []) + behind
            && Scan(Register(n, c), tag) == before + (if tag in c.info.tags then [c.name] else []) + behind
            && c.name !in before && c.name !in behind && (behind == [] <==> forall j | i < j < |n.order| :: !HasTag(n.registry, tag)(n.order[j]))
  {
    hide Indexed;
    var registry := n.registry[c.name := c.info];
    var a, b := n.order[..i], n.order[i + 1..];
    assert n.order == a + [c.name] + b;
    assert c.name !in a && c.name !in b;
    FilterAround(a, c.name, b, HasTag(n.registry, tag));
    FilterAround(a, c.name, b, HasTag(registry, tag));
    FilterSame(a, HasTag(n.registry, tag), HasTag(registry, tag));
    FilterSame(b, HasTag(n.registry, tag), HasTag(registry, tag));
    FilterMembers(a, HasTag(n.registry, tag));
    FilterMembers(b, HasTag(n.registry, tag));
    if Filter(b, HasTag(n.registry, tag)) != [] {
      var x := Filter(b, HasTag(n.registry, tag))[0];
      assert x in Filter(b, HasTag(n.registry, tag));
    }
  }

  lemma {:induction false} FilterAround(a: seq<string>, x: string, b: seq<string>, p: string -> bool)
    ensures Filter(a + [x] + b, p) == Filter(a, p) + (if p(x) then [x] else []) + Filter(b, p)
  {
    FilterConcat(a + [x], b, p);
    FilterConcat(a, [x], p);
    assert [x][..0] == [];
  }

  lemma {:induction false} ByTagAfter(n: Network, c: Call, tag: string)
    ensures ByTag(Register(n, c), tag) == ByTag(n, tag) + Repeated(c.name, Count(c.info.tags, tag))
  {
    IndexedAppends(n.index, c.name, c.info.tags, tag);
  }

  lemma PositionOf(s: seq<string>, x: string) returns (i: nat)
    requires x in s
    ensures i < |s| && s[i] == x
  {
    i :| 0 <= i < |s| && s[i] == x;
  }

  lemma KeptAgrees(n: Network, c: Call, tag: string)
    requires Consistent(n) && ByTag(n, tag) == Scan(n, tag) && KeepsIndex(n, c)
    ensures ByTag(Register(n, c), tag) == Scan(Register(n, c), tag)
  {
    hide Scan, ByTag, Register, HasTag, Filter, Count;
    ByTagAfter(n, c, tag);
    DistinctCount(c.info.tags, tag);
    assert Repeated(c.name, 0) == [] && Repeated(c.name, 1) == [c.name];
    if c.name !in n.registry {
      ScanWithNew(n, c, tag);
    } else {
      var i := PositionOf(n.order, c.name);
      ScanWithOld(n, c, tag, i);
    }
  }

  lemma {:induction false} TwiceIsNotDistinct(l: seq<string>, name: string, k: nat)
    requires k > 1
    ensures !Distinct(l + Repeated(name, k))
  {
    var r := l + Repeated(name, k);
    assert r[|l|] == name && r[|l| + 1] == name;
  }

  lemma AgainIsNotDistinct(l: seq<string>, name: string)
    requires name in l
    ensures !Distinct(l + [name])
  {
    var i := PositionOf(l, name);
    assert (l + [name])[i] == (l + [name])[|l|];
  }

  /** A list without repetitions that ends in some copies of a name. */
  lemma {:induction false} OneOfIts(l: seq<string>, k: nat, name: string, r: seq<string>)
    requires l + Repeated(name, k) == r && Distinct(r)
    ensures k <= 1 && (k == 1 ==> name !in l && r == l + [name]) && (k == 0 ==> r == l)
  {
    hide Distinct;
    if k > 1 {
      TwiceIsNotDistinct(l, name, k);
    } else if k == 1 {
      assert Repeated(name, 1) == [name];
      if name in l {
        AgainIsNotDistinct(l, name);
      }
    }
  }

  lemma SameBefore(a: seq<string>, b: seq<string>, x: string)
    requires a + [x] == b + [x]
    ensures a == b
  {
    assert a == (a + [x])[..|a + [x]| - 1];
    assert b == (b + [x])[..|b + [x]| - 1];
  }

  /** What agreement after a call says about one tag, and about the state before. */
  lemma {:induction false} AgreedBefore(n: Network, c: Call, tag: string)
    requires Consistent(n) && Found(n) && ByTag(Register(n, c), tag) == Scan(Register(n, c), tag)
    ensures Count(c.info.tags, tag) <= 1 && ByTag(n, tag) == Scan(n, tag)
    ensures c.name in n.registry ==> tag !in n.registry[c.name].tags
    ensures forall i, j | 0 <= i < j < |n.order| && n.order[i] == c.name && tag in c.info.tags :: !HasTag(n.registry, tag)(n.order[j])
  {
    hide Scan, ByTag, Register, HasTag, Filter, Count;
    var r := Scan(Register(n, c), tag);
    ByTagAfter(n, c, tag);
    CountIsMembership(c.info.tags, tag);
    ScanIsDistinct(n, c, tag);
    OneOfIts(ByTag(n, tag), Count(c.info.tags, tag), c.name, r);
    if c.name !in n.registry {
      ScanWithNew(n, c, tag);
      if tag in c.info.tags { SameBefore(ByTag(n, tag), Scan(n, tag), c.name); }
    } else {
      var i := PositionOf(n.order, c.name);
      ScanWithOld(n, c, tag, i);
      AgreedWithOld(n, c, tag, i);
    }
  }

  lemma ScanIsDistinct(n: Network, c: Call, tag: string)
    requires Consistent(n)
    ensures Distinct(Scan(Register(n, c), tag))
  {
    hide Indexed, Filter, HasTag;
    RegisterKeepsConsistent(n, c);
    FilterIsDistinct(Register(n, c).order, HasTag(Register(n, c).registry, tag));
  }

  lemma AgreedWithOld(n: Network, c: Call, tag: string, i: nat)
    requires Consistent(n) && Found(n) && i < |n.order| && n.order[i] == c.name
    requires ByTag(Register(n, c), tag) == Scan(Register(n, c), tag)
    ensures ByTag(n, tag) == Scan(n, tag) && tag !in n.registry[c.name].tags
    ensures tag in c.info.tags ==> forall j | i < j < |n.order| :: !HasTag(n.registry, tag)(n.order[j])
  {
    hide Scan, Register, HasTag, Filter, Count;
    var before, behind := Filter(n.order[..i], HasTag(n.registry, tag)), Filter(n.order[i + 1..], HasTag(n.registry, tag));
    ByTagAfter(n, c, tag);
    CountIsMembership(c.info.tags, tag);
    ScanIsDistinct(n, c, tag);
    ScanWithOld(n, c, tag, i);
    OneOfIts(ByTag(n, tag), Count(c.info.tags, tag), c.name, Scan(Register(n, c), tag));
    if tag in c.info.tags {
      EndsWithName(before, c.name, behind, ByTag(n, tag));
    }
  }

  lemma EndsWithName(before: seq<string>, name: string, behind: seq<string>, l: seq<string>)
    requires name !in behind && before + [name] + behind == l + [name]
    ensures behind == [] && l == before
  {
    if behind != [] {
      LastIsBehind(before, name, behind);
    } else {
      SameBefore(before, l, name);
    }
  }

  lemma LastIsBehind(before: seq<string>, name: string, behind: seq<string>)
    requires behind != []
    ensures var r := before + [name] + behind; r[|r| - 1] in behind
  {
  }

  /** A call keeps index and scan in agreement, for every tag, exactly if they agreed before and it is one of
      the calls that keep the index. What has once come apart never agrees again. */
  lemma StepAgreesExactly(n: Network, c: Call)
    requires Consistent(n) && Found(n)
    ensures Agrees(Register(n, c)) <==> Agrees(n) && KeepsIndex(n, c)
  {
    hide ByTag, Scan, Register, HasTag, Consistent, Found, Count;
    if Agrees(n) && KeepsIndex(n, c) {
      forall tag
        ensures ByTag(Register(n, c), tag) == Scan(Register(n, c), tag)
      {
        assert ByTag(n, tag) == Scan(n, tag);
        KeptAgrees(n, c, tag);
      }
    }
    if Agrees(Register(n, c)) {
      AgreedStep(n, c);
    }
  }

  lemma AgreedStep(n: Network, c: Call)
    requires Consistent(n) && Found(n) && Agrees(Register(n, c))
    ensures Agrees(n) && KeepsIndex(n, c)
  {
    hide ByTag, Scan, Register, HasTag, Consistent, Found, Count;
    forall tag
      ensures ByTag(n, tag) == Scan(n, tag) && Count(c.info.tags, tag) <= 1
      ensures c.name in n.registry ==> tag !in n.registry[c.name].tags
      ensures forall i, j | 0 <= i < j < |n.order| && n.order[i] == c.name && tag in c.info.tags :: !HasTag(n.registry, tag)(n.order[j])
    {
      assert ByTag(Register(n, c), tag) == Scan(Register(n, c), tag);
      AgreedBefore(n, c, tag);
    }
    CountDistinct(c.info.tags);
    if c.name in n.registry && n.registry[c.name].tags != [] {
      var tag := FirstOf(n.registry[c.name].tags);
    }
  }

  lemma FirstOf(s: seq<string>) returns (x: string)
    requires s != []
    ensures x in s
  {
    x := s[0];
  }

  /** Over a whole history index and scan agree exactly if every call keeps the index. */
  lemma {:induction false} HistoryAgreesExactly(calls: seq<Call>)
    ensures Agrees(After(calls)) <==> forall i | 0 <= i < |calls| :: KeepsIndex(After(calls[..i]), calls[i])
  {
    hide Agrees, KeepsIndex, Register, Consistent, Found;
    if calls == [] {
      EmptyIsSound();
    } else {
      var n := |calls| - 1;
      HistoryIsSound(calls[..n]);
      HistoryAgreesExactly(calls[..n]);
      StepAgreesExactly(After(calls[..n]), calls[n]);
      forall i | 0 <= i < n
        ensures KeepsIndex(After(calls[..n][..i]), calls[..n][i]) <==> KeepsIndex(After(calls[..i]), calls[i])
      {
        assert calls[..n][..i] == calls[..i];
      }
    }
  }

  lemma {:induction false} RegisteredByCall(calls: seq<Call>, name: string)
    requires name in After(calls).registry
    ensures exists i :: 0 <= i < |calls| && calls[i].name == name
  {
    if calls != [] && calls[|calls| - 1].name != name {
      RegisteredByCall(calls[..|calls| - 1], name);
      var i :| 0 <= i < |calls| - 1 && calls[..|calls| - 1][i].name == name;
      assert calls[i].name == name;
    }
  }

  /** In particular if no name is registered twice and no call repeats a tag. */
  lemma FreshNamesAgree(calls: seq<Call>)
    requires (forall i, j | 0 <= i < j < |calls| :: calls[i].name != calls[j].name) && forall i | 0 <= i < |calls| :: Distinct(calls[i].info.tags)
    ensures Agrees(After(calls))
  {
    hide After, Agrees;
    HistoryAgreesExactly(calls);
    forall i | 0 <= i < |calls|
      ensures KeepsIndex(After(calls[..i]), calls[i])
    {
      if calls[i].name in After(calls[..i]).registry {
        RegisteredByCall(calls[..i], calls[i].name);
      }
    }
  }
}
