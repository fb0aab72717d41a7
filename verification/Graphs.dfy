/** Finite undirected graphs of peers: sums over nodes and the count of edges. */
module Graphs {
  type Node = string

  /** `ids` lists the nodes and `peers` each node's peers, in the order of its peer table. */
  datatype Graph = Graph(ids: seq<Node>, peers: map<Node, seq<Node>>)

  ghost predicate Distinct(s: seq<Node>) {
    forall i, j | 0 <= i < j < |s| :: s[i] != s[j]
  }

  ghost predicate Undirected(g: Graph) {
    && Distinct(g.ids)
    && (forall u :: u in g.peers <==> u in g.ids)
    && (forall u | u in g.peers :: Distinct(g.peers[u]) && u !in g.peers[u])
    && (forall u, v | u in g.peers && v in g.peers[u] :: v in g.peers && u in g.peers[v])
  }

  ghost predicate Closed(g: Graph, s: set<Node>) {
    forall u, v | u in s && u in g.peers && v in g.peers[u] :: v in s
  }

  /** Every set that contains the root and is closed under peers contains every node. */
  ghost predicate ConnectedFrom(g: Graph, root: Node) {
    root in g.ids && forall s: set<Node> :: root in s && Closed(g, s) ==> forall u | u in g.ids :: u in s
  }

  // ----- sums over distinct nodes -----

  function Sum(f: Node -> int, s: seq<Node>): int {
    if s == [] then 0 else Sum(f, s[..|s| - 1]) + f(s[|s| - 1])
  }

  lemma {:induction false} SumRemove(f: Node -> int, s: seq<Node>, j: nat)
    requires j < |s|
    ensures Sum(f, s) == f(s[j]) + Sum(f, s[..j] + s[j + 1..])
  {
    var n := |s| - 1;
    var t := s[..j] + s[j + 1..];
    if j == n {
      assert t == s[..n];
    } else {
      SumRemove(f, s[..n], j);
      assert t[..|t| - 1] == s[..n][..j] + s[..n][j + 1..];
      assert t[|t| - 1] == s[n];
    }
  }

  /** A sum over some of the nodes against the sum over all of them. */
  lemma {:induction false} SumPart(f: Node -> int, part: seq<Node>, all: seq<Node>)
    requires Distinct(part) && Distinct(all) && forall u | u in part :: u in all
    ensures (forall u | u in all && u !in part :: f(u) >= 0) ==> Sum(f, part) <= Sum(f, all)
    ensures (forall u | u in all && u !in part :: f(u) == 0) ==> Sum(f, part) == Sum(f, all)
  {
    if part == [] {
      SumSigns(f, all);
    } else {
      var n := |part| - 1;
      var x := part[n];
      assert x in part && x in all;
      var j :| 0 <= j < |all| && all[j] == x;
      var rest := all[..j] + all[j + 1..];
      SumRemove(f, all, j);
      forall u
        ensures u in rest <==> u in all && u != x
      {
      }
      SumPart(f, part[..n], rest);
      forall u | u in rest && u !in part[..n]
        ensures u in all && u !in part
      {
      }
    }
  }

  lemma {:induction false} SumSigns(f: Node -> int, s: seq<Node>)
    ensures (forall u | u in s :: f(u) >= 0) ==> Sum(f, s) >= 0
    ensures (forall u | u in s :: f(u) == 0) ==> Sum(f, s) == 0
  {
    if s != [] {
      SumSigns(f, s[..|s| - 1]);
    }
  }

  lemma {:induction false} SumAgrees(f: Node -> int, g: Node -> int, s: seq<Node>)
    requires forall u | u in s :: f(u) == g(u)
    ensures Sum(f, s) == Sum(g, s)
  {
    if s != [] {
      SumAgrees(f, g, s[..|s| - 1]);
    }
  }

  // ----- degrees and edges -----

  function Degree(g: Graph, u: Node): nat {
    if u in g.peers then |g.peers[u]| else 0
  }

  function Linked(g: Graph, u: Node, v: Node): int {
    if u in g.peers && v in g.peers[u] then 1 else 0
  }

  /** Peers of `u` among `s`. */
  function Row(g: Graph, u: Node, s: seq<Node>): int {
    Sum((v: Node) => Linked(g, u, v), s)
  }

  function Column(g: Graph, v: Node, s: seq<Node>): int {
    Sum((u: Node) => Linked(g, u, v), s)
  }

  /** Pairs of linked nodes, each counted once. */
  function Edges(g: Graph, s: seq<Node>): int {
    if s == [] then 0 else Edges(g, s[..|s| - 1]) + Row(g, s[|s| - 1], s[..|s| - 1])
  }

  function RowTotal(g: Graph, s: seq<Node>, columns: seq<Node>): int {
    Sum((u: Node) => Row(g, u, columns), s)
  }

  lemma DegreeIsRow(g: Graph, u: Node)
    requires Undirected(g) && u in g.peers
    ensures Degree(g, u) == Row(g, u, g.ids)
  {
    var f := (v: Node) => Linked(g, u, v);
    SumPart(f, g.peers[u], g.ids);
    SumOfOnes(f, g.peers[u]);
  }

  lemma {:induction false} SumOfOnes(f: Node -> int, s: seq<Node>)
    requires forall u | u in s :: f(u) == 1
    ensures Sum(f, s) == |s|
  {
    if s != [] {
      SumOfOnes(f, s[..|s| - 1]);
    }
  }

  lemma {:induction false} AddColumn(g: Graph, s: seq<Node>, columns: seq<Node>, v: Node)
    ensures RowTotal(g, s, columns + [v]) == RowTotal(g, s, columns) + Column(g, v, s)
  {
    if s != [] {
      AddColumn(g, s[..|s| - 1], columns, v);
      assert (columns + [v])[..|columns|] == columns;
    }
  }

  lemma {:induction false} SquareIsTwiceEdges(g: Graph, s: seq<Node>)
    requires Undirected(g)
    ensures RowTotal(g, s, s) == 2 * Edges(g, s)
  {
    if s != [] {
      var n := |s| - 1;
      var rest, v := s[..n], s[n];
      SquareIsTwiceEdges(g, rest);
      AddColumn(g, rest, rest, v);
      assert rest + [v] == s;
      assert RowTotal(g, s, s) == RowTotal(g, rest, s) + Row(g, v, s);
      assert Row(g, v, s) == Row(g, v, rest) + Linked(g, v, v);
      SumAgrees((u: Node) => Linked(g, u, v), (u: Node) => Linked(g, v, u), rest);
    }
  }

  /** The degrees add up to twice the number of edges. */
  lemma {:induction false} Handshaking(g: Graph)
    requires Undirected(g)
    ensures Sum((u: Node) => Degree(g, u), g.ids) == 2 * Edges(g, g.ids)
  {
    SquareIsTwiceEdges(g, g.ids);
    forall u | u in g.ids
      ensures Degree(g, u) == Row(g, u, g.ids)
    {
      DegreeIsRow(g, u);
    }
    SumAgrees((u: Node) => Degree(g, u), (u: Node) => Row(g, u, g.ids), g.ids);
  }

  /** Away from the root, a connected graph has no isolated node. */
  lemma NoIsolatedNode(g: Graph, root: Node, u: Node)
    requires Undirected(g) && ConnectedFrom(g, root) && u in g.ids && u != root
    ensures Degree(g, u) >= 1
  {
    if g.peers[u] == [] {
      var s := set v | v in g.ids && v != u;
      assert Closed(g, s);
      assert false;
    }
  }
}
