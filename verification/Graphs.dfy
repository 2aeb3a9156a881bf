/** Directed graphs with both edge directions stored, and reachability in them. */
module Graphs {

  type Node = nat

  datatype Graph = Graph(nodes: seq<Node>, sons: map<Node, seq<Node>>, fathers: map<Node, seq<Node>>)

  /** Edges stay inside the graph and the two directions mirror each other. */
  ghost predicate GraphOk(g: Graph) {
    && (forall i, j :: 0 <= i < j < |g.nodes| ==> g.nodes[i] != g.nodes[j])
    && (forall n :: n in g.nodes <==> n in g.sons)
    && (forall n :: n in g.nodes <==> n in g.fathers)
    && (forall n, m :: n in g.sons && m in g.sons[n] ==> m in g.fathers && n in g.fathers[m])
    && (forall n, m :: n in g.fathers && m in g.fathers[n] ==> m in g.sons && n in g.sons[m])
  }

  ghost predicate Edge(g: Graph, n: Node, m: Node) {
    n in g.sons && m in g.sons[n]
  }

  ghost predicate Path(g: Graph, p: seq<Node>) {
    |p| > 0 && forall i :: 0 <= i < |p| - 1 ==> Edge(g, p[i], p[i + 1])
  }

  ghost predicate Connects(g: Graph, p: seq<Node>, x: Node, y: Node) {
    Path(g, p) && p[0] == x && p[|p| - 1] == y
  }

  /** There is a path, possibly empty, from x to y. */
  ghost predicate Reach(g: Graph, x: Node, y: Node) {
    exists p :: Connects(g, p, x, y)
  }

  lemma ReachSelf(g: Graph, x: Node)
    ensures Reach(g, x, x)
  {
    assert Connects(g, [x], x, x);
  }

  lemma ReachEdge(g: Graph, x: Node, y: Node)
    requires Edge(g, x, y)
    ensures Reach(g, x, y)
  {
    assert Connects(g, [x, y], x, y);
  }

  lemma ReachTrans(g: Graph, x: Node, y: Node, z: Node)
    requires Reach(g, x, y) && Reach(g, y, z)
    ensures Reach(g, x, z)
  {
    var p :| Connects(g, p, x, y);
    var q :| Connects(g, q, y, z);
    var r := p + q[1..];
    forall i | 0 <= i < |r| - 1 ensures Edge(g, r[i], r[i + 1]) {
      if i >= |p| - 1 { assert r[i] == q[i - |p| + 1] && r[i + 1] == q[i - |p| + 2]; }
    }
    assert Connects(g, r, x, z);
  }

  /** Members of s have all their fathers in s. */
  ghost predicate FatherClosed(g: Graph, s: set<Node>) {
    forall n, m :: m in s && Edge(g, n, m) ==> n in s
  }

  lemma {:induction false} ClosedHoldsAncestors(g: Graph, s: set<Node>, x: Node, y: Node)
    requires FatherClosed(g, s) && y in s && Reach(g, x, y)
    ensures x in s
  {
    var p :| Connects(g, p, x, y);
    PathStaysIn(g, s, p, 0);
  }

  lemma {:induction false} PathStaysIn(g: Graph, s: set<Node>, p: seq<Node>, i: nat)
    requires FatherClosed(g, s) && Path(g, p) && p[|p| - 1] in s && i < |p|
    ensures p[i] in s
    decreases |p| - i
  {
    if i < |p| - 1 {
      PathStaysIn(g, s, p, i + 1);
      assert Edge(g, p[i], p[i + 1]);
    }
  }
}
