/** What a history of registrations leaves in the registry. */
module CapabilityHistory {
  import opened CapabilityIndex
  import opened CapabilitySearch
  import opened CapabilityRanking

  /** The last call with this name, or none. */
  ghost predicate IsLastCall(calls: seq<Call>, name: string, i: nat) {
    i < |calls| && calls[i].name == name && forall j | i < j < |calls| :: calls[j].name != name
  }

  /** Over any history, the entry of a name is what its last call gave, and a name that no call gave is not there. */
  lemma {:induction false} LastCallWins(calls: seq<Call>, name: string)
    ensures name in After(calls).registry <==> exists i: nat :: IsLastCall(calls, name, i)
    ensures forall i: nat | IsLastCall(calls, name, i) :: name in After(calls).registry && After(calls).registry[name] == calls[i].info
  {
    hide Indexed;
    if calls != [] {
      var n := |calls| - 1;
      LastCallWins(calls[..n], name);
      if calls[n].name == name {
        assert IsLastCall(calls, name, n);
      } else {
        forall i: nat
          ensures IsLastCall(calls, name, i) <==> IsLastCall(calls[..n], name, i)
        {
          LastCallBefore(calls, name, i);
        }
      }
    }
  }

  lemma LastCallBefore(calls: seq<Call>, name: string, i: nat)
    requires calls != [] && calls[|calls| - 1].name != name
    ensures IsLastCall(calls, name, i) <==> IsLastCall(calls[..|calls| - 1], name, i)
  {
    var n := |calls| - 1;
    if IsLastCall(calls[..n], name, i) {
      assert calls[..n][i] == calls[i];
      forall j | i < j < |calls|
        ensures calls[j].name != name
      {
        if j < n { assert calls[..n][j] == calls[j]; }
      }
    }
  }

  /** A registration puts the name behind the others if it is new, and behind the other functions in the list of each of its
      tags, once for each time the tag is given; no other list changes. */
  lemma {:induction false} RegisterExactly(n: Network, c: Call, tag: string)
    ensures Register(n, c).order == if c.name in n.registry then n.order else n.order + [c.name]
    ensures Register(n, c).registry == n.registry[c.name := c.info]
    ensures var was, now := ByTag(n, tag), ByTag(Register(n, c), tag);
            && |now| == |was| + Times(c.info.tags, tag) && now[..|was|] == was && forall i | |was| <= i < |now| :: now[i] == c.name
  {
    IndexedExactly(n.index, c.name, c.info.tags, tag);
  }

  /** How often a tag is given. */
  function Times(tags: seq<string>, tag: string): nat {
    multiset(tags)[tag]
  }

  lemma {:induction false} IndexedExactly(index: map<string, seq<string>>, name: string, tags: seq<string>, tag: string)
    ensures var was, now := Get(index, tag), Get(Indexed(index, name, tags), tag);
            && |now| == |was| + Times(tags, tag) && now[..|was|] == was && forall i | |was| <= i < |now| :: now[i] == name
  {
    if tags != [] {
      var k := |tags| - 1;
      IndexedExactly(index, name, tags[..k], tag);
      assert tags == tags[..k] + [tags[k]];
    }
  }

  /** After the tools of a brain system, with different names, were registered, each has its own description, the category
      its name says, and the tags that its name and description say. */
  lemma {:induction false} ToolsAreRegistered(lower: string -> string, tools: seq<Tool>, i: nat)
    requires i < |tools| && forall j, k | 0 <= j < k < |tools| :: tools[j].name != tools[k].name
    ensures var t, n := tools[i], After(CallsFor(lower, tools));
            && t.name in n.registry
            && n.registry[t.name] == Info(t.description, Categorize(lower, t.name), ExtractTags(lower, t.name, t.description))
            && n.order == seq(|tools|, k requires 0 <= k < |tools| => tools[k].name)
  {
    hide ExtractTags, Categorize;
    var calls := CallsFor(lower, tools);
    LastCallWins(calls, tools[i].name);
    assert IsLastCall(calls, tools[i].name, i);
    assert calls[..|tools|] == calls;
    ToolsInOrder(calls, |tools|);
    assert seq(|tools|, k requires 0 <= k < |tools| => calls[k].name) == seq(|tools|, k requires 0 <= k < |tools| => tools[k].name);
  }

  lemma {:induction false} ToolsInOrder(calls: seq<Call>, n: nat)
    requires n <= |calls| && forall j, k | 0 <= j < k < |calls| :: calls[j].name != calls[k].name
    ensures After(calls[..n]).order == seq(n, k requires 0 <= k < n => calls[k].name)
  {
    hide Indexed;
    if n > 0 {
      ToolsInOrder(calls, n - 1);
      assert calls[..n][..n - 1] == calls[..n - 1];
      LastCallWins(calls[..n - 1], calls[n - 1].name);
    }
  }
}
