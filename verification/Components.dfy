/** The component pass behind cyclomatic complexity: a depth-first postorder over sons, then
    collection over fathers in that same order. */
module Components {
  import opened Collections
  import opened Graphs

  /** c holds, each once, the nodes that reach its first node, its root, minus those taken
      before; and every son of the root reaches the root back. */
  ghost predicate ComponentOk(g: Graph, c: seq<Node>, before: set<Node>) {
    && c != [] && Distinct(c)
    && (forall x :: x in c <==> x in g.sons && Reach(g, x, c[0]) && x !in before)
    && (forall m :: Edge(g, c[0], m) ==> Reach(g, m, c[0]))
  }

  /** What the pass has established when the nodes of `taken` are in components. */
  ghost predicate Built(g: Graph, cs: seq<seq<Node>>, taken: set<Node>) {
    && (forall i :: 0 <= i < |cs| ==> ComponentOk(g, cs[i], Taken(cs, i)))
    && taken == Taken(cs, |cs|) && taken <= g.sons.Keys && FatherClosed(g, taken)
  }

  /** Nodes of the first n components. */
  function Taken(cs: seq<seq<Node>>, n: nat): set<Node>
    requires n <= |cs|
  {
    if n == 0 then {} else Taken(cs, n - 1) + Elements(cs[n - 1])
  }

  lemma ElementsSnoc(s: seq<Node>, n: Node)
    ensures Elements(s + [n]) == Elements(s) + {n}
  {
  }

  /** The root of component i is node j of the postorder, and all nodes before it there are in
      earlier components. */
  ghost predicate RootAt(cs: seq<seq<Node>>, l: seq<Node>, i: nat, j: nat)
    requires i < |cs|
  {
    && j < |l| && cs[i] != [] && l[j] == cs[i][0]
    && forall k :: 0 <= k < j ==> l[k] in Taken(cs, i)
  }

  ghost predicate RootListed(cs: seq<seq<Node>>, l: seq<Node>, i: nat)
    requires i < |cs|
  {
    exists j: nat :: RootAt(cs, l, i, j)
  }

  ghost predicate Along(cs: seq<seq<Node>>, l: seq<Node>) {
    forall i :: 0 <= i < |cs| ==> RootListed(cs, l, i)
  }

  lemma AlongSnoc(cs: seq<seq<Node>>, l: seq<Node>, c: seq<Node>, j: nat)
    requires Along(cs, l) && c != [] && j < |l| && l[j] == c[0]
    requires forall k :: 0 <= k < j ==> l[k] in Taken(cs, |cs|)
    ensures Along(cs + [c], l)
  {
    var ds := cs + [c];
    forall i | 0 <= i < |ds| ensures RootListed(ds, l, i) {
      TakenPrefix(cs, c, i);
      if i < |cs| {
        assert RootListed(cs, l, i);
        var p: nat :| RootAt(cs, l, i, p);
        assert RootAt(ds, l, i, p);
      } else {
        assert RootAt(ds, l, i, j);
      }
    }
  }

  /** No node occurs twice in a component. */
  ghost predicate Distinct(c: seq<Node>) { |c| == |Elements(c)| }

  /** Each node's sons come earlier, or lead back to it. */
  ghost predicate Postordered(g: Graph, l: seq<Node>) {
    forall i, m :: 0 <= i < |l| && Edge(g, l[i], m) ==> m in l[..i] || Reach(g, m, l[i])
  }

  /** Everything between before and after reaches node. */
  ghost predicate AllReach(g: Graph, before: set<Node>, after: set<Node>, node: Node) {
    before <= after && forall x :: x in after && x !in before ==> Reach(g, x, node)
  }

  /** The fathers of everything between before and after are in after. */
  ghost predicate FathersIn(g: Graph, before: set<Node>, after: set<Node>) {
    forall x, f :: x in after && x !in before && Edge(g, f, x) ==> f in after
  }

  lemma FathersInTrans(g: Graph, s: set<Node>, t: set<Node>, u: set<Node>)
    requires FathersIn(g, s, t) && FathersIn(g, t, u) && t <= u
    ensures FathersIn(g, s, u)
  {
  }

  /** now is was plus the nodes between before and after, each once. */
  ghost predicate Extended(was: seq<Node>, now: seq<Node>, before: set<Node>, after: set<Node>) {
    && was <= now && before <= after && |now| - |was| == |after| - |before|
    && Elements(now) == Elements(was) + (after - before)
  }

  lemma AllReachThrough(g: Graph, s: set<Node>, t: set<Node>, u: set<Node>, father: Node, node: Node)
    requires AllReach(g, s, t, node) && AllReach(g, t, u, father) && Edge(g, father, node)
    ensures AllReach(g, s, u, node)
  {
    ReachEdge(g, father, node);
    forall x | x in u && x !in s ensures Reach(g, x, node) {
      if x !in t { ReachTrans(g, x, father, node); }
    }
  }

  lemma ExtendedTrans(a: seq<Node>, b: seq<Node>, c: seq<Node>, s: set<Node>, t: set<Node>, u: set<Node>)
    requires Extended(a, b, s, t) && Extended(b, c, t, u)
    ensures Extended(a, c, s, u)
  {
    assert u - s == (t - s) + (u - t);
  }

  /** Edges leaving the first n nodes. */
  function EdgeCount(g: Graph, n: nat): nat
    requires n <= |g.nodes| && forall x :: x in g.nodes ==> x in g.sons
  {
    if n == 0 then 0 else EdgeCount(g, n - 1) + |g.sons[g.nodes[n - 1]]|
  }

  /** The same edges one by one: the place of the node and the place of the son. */
  ghost function EdgePlaces(g: Graph, n: nat): set<(nat, nat)>
    requires n <= |g.nodes| && forall x :: x in g.nodes ==> x in g.sons
  {
    set i: nat, j: nat | i < n && j < |g.sons[g.nodes[i]]| :: (i, j)
  }

  ghost function RowPlaces(i: nat, n: nat): set<(nat, nat)> {
    set j: nat | j < n :: (i, j)
  }

  lemma {:induction false} RowCount(i: nat, n: nat)
    ensures |RowPlaces(i, n)| == n
  {
    if n > 0 {
      RowCount(i, n - 1);
      assert RowPlaces(i, n) == RowPlaces(i, n - 1) + {(i, n - 1)};
    }
  }

  /** An edge listed twice counts twice. */
  lemma {:induction false} EdgeCountIsPlaces(g: Graph, n: nat)
    requires n <= |g.nodes| && forall x :: x in g.nodes ==> x in g.sons
    ensures EdgeCount(g, n) == |EdgePlaces(g, n)|
    decreases n
  {
    if n == 0 {
      assert EdgePlaces(g, 0) == {};
    } else {
      EdgeCountIsPlaces(g, n - 1);
      var row := RowPlaces(n - 1, |g.sons[g.nodes[n - 1]]|);
      RowCount(n - 1, |g.sons[g.nodes[n - 1]]|);
      assert EdgePlaces(g, n) == EdgePlaces(g, n - 1) + row;
      assert EdgePlaces(g, n - 1) !! row;
    }
  }

  class ComponentPass {
    const g: Graph
    var visited: set<Node>
    var l: seq<Node>
    var collected: set<Node>
    var root: seq<Node>

    constructor (g: Graph)
      ensures this.g == g && visited == {} && l == [] && collected == {} && root == []
    {
      this.g, visited, l, collected, root := g, {}, [], {}, [];
    }

    /** open: the nodes whose visit has begun and not ended. */
    ghost predicate Visiting(open: set<Node>)
      reads this
    {
      Postordered(g, l) && visited == open + Elements(l) && visited <= g.sons.Keys
    }

    method Visit(node: Node, ghost open: set<Node>)
      requires GraphOk(g) && node in g.sons && Visiting(open)
      requires forall x :: x in open ==> Reach(g, x, node)
      modifies this`visited, this`l
      ensures Visiting(open) && old(visited) <= visited && node in visited
      decreases g.sons.Keys - visited, 0
    {
      hide Reach;
      if node !in visited {
        visited := visited + {node};
        ReachSelf(g, node);
        VisitSons(node, open + {node});
        PostorderedSnoc(g, l, node, open);
        ElementsSnoc(l, node);
        l := l + [node];
      }
    }

    method VisitSons(node: Node, ghost open: set<Node>)
      requires GraphOk(g) && node in g.sons && node in open && Visiting(open)
      requires forall x :: x in open ==> Reach(g, x, node)
      modifies this`visited, this`l
      ensures Visiting(open) && old(visited) <= visited
      ensures forall m :: Edge(g, node, m) ==> m in visited
      decreases g.sons.Keys - visited, 1
    {
      hide Reach;
      var sons := g.sons[node];
      for i := 0 to |sons|
        invariant Visiting(open) && old(visited) <= visited
        invariant forall j :: 0 <= j < i ==> sons[j] in visited
      {
        assert Edge(g, node, sons[i]);
        ReachEdge(g, node, sons[i]);
        forall x | x in open ensures Reach(g, x, sons[i]) { ReachTrans(g, x, node, sons[i]); }
        Visit(sons[i], open);
      }
    }

    /** Adds to root every uncollected node that reaches node over uncollected nodes. */
    method Assign(node: Node)
      requires GraphOk(g) && node in g.sons && collected <= g.sons.Keys
      modifies this`collected, this`root
      ensures node in collected && collected <= g.sons.Keys
      ensures AllReach(g, old(collected), collected, node)
      ensures FathersIn(g, old(collected), collected)
      ensures Extended(old(root), root, old(collected), collected)
      ensures if node in old(collected) then root == old(root) && collected == old(collected)
              else |root| > |old(root)| && root[|old(root)|] == node
      decreases g.sons.Keys - collected, 0
    {
      hide Reach, AllReach, FathersIn, Extended;
      if node in collected {
        NothingAssigned(g, node, root, collected);
      } else {
        ElementsSnoc(root, node);
        collected := collected + {node};
        root := root + [node];
        ReachSelf(g, node);
        AssignFathers(node);
        NodeAssigned(g, node, old(root), root, old(collected), collected);
      }
    }

    static lemma NothingAssigned(g: Graph, node: Node, root: seq<Node>, collected: set<Node>)
      ensures AllReach(g, collected, collected, node) && FathersIn(g, collected, collected)
      ensures Extended(root, root, collected, collected)
    {
    }

    /** What holds from the node on holds from before it. */
    static lemma NodeAssigned(g: Graph, node: Node, was: seq<Node>, now: seq<Node>, before: set<Node>, after: set<Node>)
      requires node !in before && Reach(g, node, node) && Elements(was + [node]) == Elements(was) + {node}
      requires AllReach(g, before + {node}, after, node) && FathersIn(g, before + {node}, after)
      requires forall f :: Edge(g, f, node) ==> f in after
      requires Extended(was + [node], now, before + {node}, after)
      ensures AllReach(g, before, after, node) && FathersIn(g, before, after)
      ensures Extended(was, now, before, after) && |now| > |was| && now[|was|] == node && node in after
    {
      hide Reach;
      ExtendedTrans(was, was + [node], now, before, before + {node}, after);
      assert (was + [node])[|was|] == node;
    }

    method AssignFathers(node: Node)
      requires GraphOk(g) && node in collected && collected <= g.sons.Keys
      modifies this`collected, this`root
      ensures collected <= g.sons.Keys && AllReach(g, old(collected), collected, node)
      ensures FathersIn(g, old(collected), collected)
      ensures forall f :: Edge(g, f, node) ==> f in collected
      ensures Extended(old(root), root, old(collected), collected)
      decreases g.sons.Keys - collected, 1
    {
      hide Reach;
      var fathers := g.fathers[node];
      for i := 0 to |fathers|
        invariant collected <= g.sons.Keys && AllReach(g, old(collected), collected, node)
        invariant FathersIn(g, old(collected), collected)
        invariant forall j :: 0 <= j < i ==> fathers[j] in collected
        invariant Extended(old(root), root, old(collected), collected)
      {
        ghost var before, was := collected, root;
        assert Edge(g, fathers[i], node);
        Assign(fathers[i]);
        FathersInTrans(g, old(collected), before, collected);
        AllReachThrough(g, old(collected), before, collected, fathers[i], node);
        ExtendedTrans(old(root), was, root, old(collected), before, collected);
      }
    }

    /** The components, and with them everything the lemmas below conclude. */
    method StronglyConnectedComponents() returns (components: seq<seq<Node>>)
      requires GraphOk(g) && visited == {} && l == [] && collected == {}
      modifies this
      ensures Built(g, components, g.sons.Keys)
      ensures Along(components, l) && forall n :: n in g.sons ==> n in l
      ensures forall j :: 0 <= j < |l| ==> l[j] in g.sons
    {
      hide Reach, ComponentOk, Postordered, FatherClosed, GraphOk, Along;
      VisitAll();
      components := Group();
      forall n | n in g.sons.Keys ensures n in collected {
        assert n in l;
        var j :| 0 <= j < |l| && l[j] == n;
      }
      assert Built(g, components, collected) && collected == g.sons.Keys;
    }

    method NumberOfEdges() returns (n: nat)
      requires forall x :: x in g.nodes ==> x in g.sons
      ensures n == |EdgePlaces(g, |g.nodes|)|
    {
      n := 0;
      for i := 0 to |g.nodes|
        invariant n == EdgeCount(g, i)
      {
        n := n + |g.sons[g.nodes[i]]|;
      }
      EdgeCountIsPlaces(g, |g.nodes|);
    }

    method CyclomaticComplexity() returns (m: int, ghost components: seq<seq<Node>>)
      requires GraphOk(g) && visited == {} && l == [] && collected == {}
      modifies this
      ensures Built(g, components, g.sons.Keys)
      ensures m == |EdgePlaces(g, |g.nodes|)| - |g.nodes| + 2 * |components|
    {
      hide Reach;
      var edges := NumberOfEdges();
      var cs := StronglyConnectedComponents();
      m, components := edges - |g.nodes| + 2 * |cs|, cs;
    }

    method VisitAll()
      requires GraphOk(g) && visited == {} && l == []
      modifies this`visited, this`l
      ensures Postordered(g, l) && (forall j :: 0 <= j < |l| ==> l[j] in g.sons) && forall n :: n in g.sons ==> n in l
    {
      hide Reach;
      for i := 0 to |g.nodes|
        invariant Visiting({}) && forall j :: 0 <= j < i ==> g.nodes[j] in visited
      {
        Visit(g.nodes[i], {});
      }
      assert forall j :: 0 <= j < |l| ==> l[j] in Elements(l);
      assert forall n :: n in g.nodes ==> n in Elements(l);
    }

    method Group() returns (components: seq<seq<Node>>)
      requires GraphOk(g) && collected == {} && Postordered(g, l)
      requires forall j :: 0 <= j < |l| ==> l[j] in g.sons
      modifies this`collected, this`root
      ensures Built(g, components, collected) && Along(components, l)
      ensures forall j :: 0 <= j < |l| ==> l[j] in collected
    {
      hide Reach, Postordered, GraphOk, ComponentOk, FatherClosed;
      components := [];
      assert Built(g, components, collected) by { EmptyIsBuilt(g); }
      for i := 0 to |l|
        invariant Built(g, components, collected) && Along(components, l)
        invariant forall j :: 0 <= j < i ==> l[j] in collected
      {
        components := AddComponent(i, components);
      }
    }

    method AddComponent(i: nat, components: seq<seq<Node>>) returns (extended: seq<seq<Node>>)
      requires GraphOk(g) && Postordered(g, l) && i < |l| && l[i] in g.sons
      requires Built(g, components, collected) && forall j :: 0 <= j < i ==> l[j] in collected
      requires Along(components, l)
      modifies this`collected, this`root
      ensures Built(g, extended, collected) && forall j :: 0 <= j <= i ==> l[j] in collected
      ensures Along(extended, l)
    {
      hide Reach, ComponentOk, AllReach, FathersIn, Postordered, GraphOk, FatherClosed, Along, Built;
      BuiltWithin(g, components, collected);
      root := [];
      Assign(l[i]);
      extended := components;
      if root != [] {
        ComponentAdded(g, components, l, i, old(collected), collected, root);
        AlongSnoc(components, l, root, i);
        extended := components + [root];
      }
      assert forall j :: 0 <= j <= i ==> l[j] in collected;
    }
  }

  lemma BuiltWithin(g: Graph, cs: seq<seq<Node>>, taken: set<Node>)
    requires Built(g, cs, taken)
    ensures taken <= g.sons.Keys && taken == Taken(cs, |cs|)
  {
  }

  lemma EmptyIsBuilt(g: Graph)
    ensures Built(g, [], {})
  {
  }

  lemma ComponentAdded(g: Graph, cs: seq<seq<Node>>, l: seq<Node>, i: nat, before: set<Node>,
                       after: set<Node>, c: seq<Node>)
    requires Built(g, cs, before) && Postordered(g, l) && i < |l| && l[i] in after && l[i] !in before
    requires after <= g.sons.Keys && forall j :: 0 <= j < i ==> l[j] in before
    requires AllReach(g, before, after, l[i]) && FathersIn(g, before, after)
    requires Extended([], c, before, after) && c != [] && c[0] == l[i]
    ensures Built(g, cs + [c], after)
  {
    hide Reach;
    ComponentFound(g, l, i, before, after, c);
    BuiltSnoc(g, cs, c, before, after);
  }

  /** Collecting from node adds exactly the nodes that reach it. */
  lemma AncestorsCollected(g: Graph, before: set<Node>, after: set<Node>, node: Node)
    requires AllReach(g, before, after, node) && FathersIn(g, before, after) && FatherClosed(g, before)
    requires node in after && before <= after <= g.sons.Keys
    ensures FatherClosed(g, after)
    ensures forall x :: x in after - before <==> x in g.sons && Reach(g, x, node) && x !in before
  {
    forall x | Reach(g, x, node) ensures x in after { ClosedHoldsAncestors(g, after, x, node); }
  }

  /** A node that is still uncollected when its turn comes has no son outside its own cycle. */
  lemma RootReturns(g: Graph, l: seq<Node>, i: nat, before: set<Node>)
    requires Postordered(g, l) && i < |l| && FatherClosed(g, before) && l[i] !in before
    requires forall j :: 0 <= j < i ==> l[j] in before
    ensures forall m :: Edge(g, l[i], m) ==> Reach(g, m, l[i])
  {
  }

  lemma {:induction false} TakenPrefix(cs: seq<seq<Node>>, c: seq<Node>, n: nat)
    requires n <= |cs|
    ensures Taken(cs + [c], n) == Taken(cs, n)
  {
    if n > 0 { TakenPrefix(cs, c, n - 1); }
  }

  lemma BuiltSnoc(g: Graph, cs: seq<seq<Node>>, c: seq<Node>, before: set<Node>, after: set<Node>)
    requires Built(g, cs, before) && ComponentOk(g, c, before)
    requires after == before + Elements(c) && after <= g.sons.Keys && FatherClosed(g, after)
    ensures Built(g, cs + [c], after)
  {
    var ds := cs + [c];
    forall n | 0 <= n <= |cs| ensures Taken(ds, n) == Taken(cs, n) { TakenPrefix(cs, c, n); }
    forall i | 0 <= i < |ds| ensures ComponentOk(g, ds[i], Taken(ds, i)) {
      assert i < |cs| ==> ds[i] == cs[i];
    }
  }

  /** The nodes collected from l[i] form a component. */
  lemma ComponentFound(g: Graph, l: seq<Node>, i: nat, before: set<Node>, after: set<Node>, c: seq<Node>)
    requires Postordered(g, l) && i < |l| && l[i] in after && l[i] !in before && after <= g.sons.Keys
    requires forall j :: 0 <= j < i ==> l[j] in before
    requires AllReach(g, before, after, l[i]) && FathersIn(g, before, after) && FatherClosed(g, before)
    requires Extended([], c, before, after) && c != [] && c[0] == l[i]
    ensures ComponentOk(g, c, before) && after == before + Elements(c) && FatherClosed(g, after)
  {
    AncestorsCollected(g, before, after, l[i]);
    RootReturns(g, l, i, before);
    assert Elements<Node>([]) == {} && Elements(c) == after - before;
    assert forall x :: x in c <==> x in Elements(c);
    SizeOfDifference(before, after);
  }

  lemma SizeOfDifference(a: set<Node>, b: set<Node>)
    requires a <= b
    ensures |b - a| == |b| - |a|
  {
    assert b == a + (b - a);
  }

  lemma PostorderedSnoc(g: Graph, l: seq<Node>, node: Node, open: set<Node>)
    requires Postordered(g, l) && forall x :: x in open + {node} ==> Reach(g, x, node)
    requires forall m :: Edge(g, node, m) ==> m in open + {node} || m in l
    ensures Postordered(g, l + [node])
  {
    var l' := l + [node];
    forall i, m | 0 <= i < |l'| && Edge(g, l'[i], m) ensures m in l'[..i] || Reach(g, m, l'[i]) {
      if i < |l| { assert l'[..i] == l[..i]; } else { assert l'[..i] == l; }
    }
  }

  // ----- what the components are -----

  lemma {:induction false} TakenMembers(cs: seq<seq<Node>>, n: nat, x: Node)
    requires n <= |cs|
    ensures x in Taken(cs, n) <==> exists i :: 0 <= i < n && x in cs[i]
  {
    if n > 0 { TakenMembers(cs, n - 1, x); }
  }

  /** A node taken into component i or an earlier one reaches the root of one of them. */
  lemma TakenOrReaching(g: Graph, cs: seq<seq<Node>>, i: nat, x: Node)
    requires Built(g, cs, g.sons.Keys) && i < |cs| && x in g.sons && Reach(g, x, cs[i][0])
    ensures exists k :: 0 <= k <= i && x in cs[k]
  {
    hide Reach;
    assert ComponentOk(g, cs[i], Taken(cs, i));
    TakenMembers(cs, i, x);
  }

  lemma NoOverlap(g: Graph, cs: seq<seq<Node>>, i: nat, k: nat, x: Node)
    requires Built(g, cs, g.sons.Keys) && k < i < |cs| && x in cs[k]
    ensures x !in cs[i]
  {
    hide Reach;
    assert ComponentOk(g, cs[i], Taken(cs, i));
    TakenMembers(cs, i, x);
  }

  /** The components partition the nodes. */
  lemma ComponentsPartition(g: Graph, cs: seq<seq<Node>>, x: Node)
    requires Built(g, cs, g.sons.Keys)
    ensures x in g.sons <==> exists i :: 0 <= i < |cs| && x in cs[i]
    ensures forall i, k :: 0 <= k < i < |cs| && x in cs[k] ==> x !in cs[i]
  {
    hide Reach;
    TakenMembers(cs, |cs|, x);
    forall i, k | 0 <= k < i < |cs| && x in cs[k] ensures x !in cs[i] { NoOverlap(g, cs, i, k, x); }
  }

  ghost predicate Mutual(g: Graph, x: Node, y: Node) {
    Reach(g, x, y) && Reach(g, y, x)
  }

  /** Nodes that reach each other are never put into different components. */
  lemma CyclesStayTogether(g: Graph, cs: seq<seq<Node>>, i: nat, x: Node, y: Node)
    requires Built(g, cs, g.sons.Keys) && i < |cs| && x in cs[i] && y in g.sons && Mutual(g, x, y)
    ensures y in cs[i]
  {
    hide Reach;
    assert ComponentOk(g, cs[i], Taken(cs, i));
    ReachTrans(g, y, x, cs[i][0]);
    TakenMembers(cs, i, y);
    if y in Taken(cs, i) {
      var k :| 0 <= k < i && y in cs[k];
      assert ComponentOk(g, cs[k], Taken(cs, k));
      ReachTrans(g, x, y, cs[k][0]);
      TakenOrReaching(g, cs, k, x);
      var m :| 0 <= m <= k && x in cs[m];
      NoOverlap(g, cs, i, m, x);
    }
  }

  // ----- how many there are -----

  /** The strongly connected component of n. */
  ghost function Scc(g: Graph, n: Node): set<Node> {
    set m | m in g.sons && Mutual(g, n, m)
  }

  ghost function Sccs(g: Graph): set<set<Node>> {
    set n | n in g.sons :: Scc(g, n)
  }

  /** No edge leaves c. */
  ghost predicate Sink(g: Graph, c: set<Node>) {
    forall n, m :: n in c && Edge(g, n, m) ==> m in c
  }

  ghost function SinkSccs(g: Graph): set<set<Node>> {
    set c | c in Sccs(g) && Sink(g, c)
  }

  lemma {:induction false} DistinctCount<T>(ts: seq<T>)
    requires forall i, k :: 0 <= k < i < |ts| ==> ts[i] != ts[k]
    ensures |Elements(ts)| == |ts|
  {
    if ts != [] {
      var init, last := ts[..|ts| - 1], ts[|ts| - 1];
      DistinctCount(init);
      assert Elements(ts) == Elements(init) + {last} && last !in Elements(init);
    }
  }

  /** The roots in order. */
  function Roots(cs: seq<seq<Node>>): (rs: seq<Node>)
    requires forall i :: 0 <= i < |cs| ==> cs[i] != []
    ensures |rs| == |cs| && forall i :: 0 <= i < |cs| ==> rs[i] == cs[i][0]
  {
    seq(|cs|, i requires 0 <= i < |cs| => cs[i][0])
  }

  ghost function RootSccs(g: Graph, cs: seq<seq<Node>>): (ss: seq<set<Node>>)
    requires forall i :: 0 <= i < |cs| ==> cs[i] != []
    ensures |ss| == |cs| && forall i :: 0 <= i < |cs| ==> ss[i] == Scc(g, cs[i][0])
  {
    seq(|cs|, i requires 0 <= i < |cs| => Scc(g, cs[i][0]))
  }

  lemma RootIsMember(g: Graph, cs: seq<seq<Node>>, i: nat)
    requires Built(g, cs, g.sons.Keys) && i < |cs|
    ensures cs[i] != [] && cs[i][0] in g.sons && cs[i][0] in cs[i] && cs[i][0] in Scc(g, cs[i][0])
  {
    assert ComponentOk(g, cs[i], Taken(cs, i));
    assert cs[i][0] in cs[i];
    ReachSelf(g, cs[i][0]);
  }

  /** Nodes of different components never lie in one strongly connected component. */
  lemma RootSccsDiffer(g: Graph, cs: seq<seq<Node>>, i: nat, k: nat)
    requires Built(g, cs, g.sons.Keys) && k < i < |cs|
    ensures cs[i] != [] && cs[k] != [] && Scc(g, cs[i][0]) != Scc(g, cs[k][0])
  {
    hide Reach;
    RootIsMember(g, cs, i);
    RootIsMember(g, cs, k);
    if Scc(g, cs[i][0]) == Scc(g, cs[k][0]) {
      assert Mutual(g, cs[k][0], cs[i][0]);
      CyclesStayTogether(g, cs, k, cs[k][0], cs[i][0]);
      NoOverlap(g, cs, i, k, cs[i][0]);
    }
  }

  lemma RootSccsCount(g: Graph, cs: seq<seq<Node>>)
    requires Built(g, cs, g.sons.Keys) && forall i :: 0 <= i < |cs| ==> cs[i] != []
    ensures |Elements(RootSccs(g, cs))| == |cs| && Elements(RootSccs(g, cs)) <= Sccs(g)
  {
    hide Reach, Scc;
    forall i, k | 0 <= k < i < |cs| ensures Scc(g, cs[i][0]) != Scc(g, cs[k][0]) { RootSccsDiffer(g, cs, i, k); }
    DistinctCount(RootSccs(g, cs));
    forall i | 0 <= i < |cs| ensures Scc(g, cs[i][0]) in Sccs(g) { RootIsMember(g, cs, i); }
  }

  lemma {:induction false} SinkHoldsDescendants(g: Graph, c: set<Node>, p: seq<Node>, i: nat)
    requires Sink(g, c) && Path(g, p) && p[0] in c && i < |p|
    ensures p[i] in c
  {
    if i > 0 {
      SinkHoldsDescendants(g, c, p, i - 1);
      assert Edge(g, p[i - 1], p[i]);
    }
  }

  lemma SinkSccIsRootScc(g: Graph, cs: seq<seq<Node>>, x: Node)
    requires Built(g, cs, g.sons.Keys) && x in g.sons && Sink(g, Scc(g, x))
    ensures exists i :: 0 <= i < |cs| && cs[i] != [] && Scc(g, x) == Scc(g, cs[i][0])
  {
    ComponentsPartition(g, cs, x);
    var i :| 0 <= i < |cs| && x in cs[i];
    assert ComponentOk(g, cs[i], Taken(cs, i));
    var r := cs[i][0];
    var p :| Connects(g, p, x, r);
    ReachSelf(g, x);
    SinkHoldsDescendants(g, Scc(g, x), p, |p| - 1);
    SameScc(g, x, r);
  }

  lemma SameScc(g: Graph, x: Node, y: Node)
    requires Mutual(g, x, y)
    ensures Scc(g, x) == Scc(g, y)
  {
    hide Reach;
    forall m | m in g.sons ensures Mutual(g, x, m) <==> Mutual(g, y, m) {
      if Mutual(g, x, m) { ReachTrans(g, y, x, m); ReachTrans(g, m, x, y); }
      if Mutual(g, y, m) { ReachTrans(g, x, y, m); ReachTrans(g, m, y, x); }
    }
  }

  /** At least one component per sink, at most one per strongly connected component. */
  lemma ComponentCountBounds(g: Graph, cs: seq<seq<Node>>)
    requires Built(g, cs, g.sons.Keys)
    ensures |SinkSccs(g)| <= |cs| <= |Sccs(g)|
  {
    hide Reach, Scc;
    forall i | 0 <= i < |cs| ensures cs[i] != [] { RootIsMember(g, cs, i); }
    RootSccsCount(g, cs);
    var roots := Elements(RootSccs(g, cs));
    forall c | c in SinkSccs(g) ensures c in roots {
      var x :| x in g.sons && c == Scc(g, x);
      SinkSccIsRootScc(g, cs, x);
      var i :| 0 <= i < |cs| && cs[i] != [] && Scc(g, x) == Scc(g, cs[i][0]);
      assert RootSccs(g, cs)[i] == c;
    }
    SubsetSize(SinkSccs(g), roots);
    SubsetSize(roots, Sccs(g));
  }

  // ----- acyclic graphs -----

  ghost predicate Acyclic(g: Graph) {
    forall n, m :: Edge(g, n, m) ==> !Reach(g, m, n)
  }

  /** Nodes without sons. */
  function Leaves(g: Graph): set<Node> { set n | n in g.sons && g.sons[n] == [] }

  lemma RootsCount(g: Graph, cs: seq<seq<Node>>)
    requires Built(g, cs, g.sons.Keys) && forall i :: 0 <= i < |cs| ==> cs[i] != []
    ensures |Elements(Roots(cs))| == |cs|
  {
    hide Reach;
    forall i, k | 0 <= k < i < |cs| ensures cs[i][0] != cs[k][0] {
      RootIsMember(g, cs, i);
      RootIsMember(g, cs, k);
      NoOverlap(g, cs, i, k, cs[k][0]);
    }
    DistinctCount(Roots(cs));
  }

  lemma LeafIsRoot(g: Graph, cs: seq<seq<Node>>, x: Node)
    requires Built(g, cs, g.sons.Keys) && x in Leaves(g)
    ensures exists i :: 0 <= i < |cs| && cs[i] != [] && x == cs[i][0]
  {
    ComponentsPartition(g, cs, x);
    var i :| 0 <= i < |cs| && x in cs[i];
    assert ComponentOk(g, cs[i], Taken(cs, i));
    var p :| Connects(g, p, x, cs[i][0]);
    assert |p| > 1 ==> Edge(g, p[0], p[1]);
  }

  lemma RootIsLeaf(g: Graph, cs: seq<seq<Node>>, i: nat)
    requires Built(g, cs, g.sons.Keys) && Acyclic(g) && i < |cs|
    ensures cs[i] != [] && cs[i][0] in Leaves(g)
  {
    hide Reach;
    RootIsMember(g, cs, i);
    assert ComponentOk(g, cs[i], Taken(cs, i));
    var sons := g.sons[cs[i][0]];
    assert sons != [] ==> Edge(g, cs[i][0], sons[0]);
  }

  /** On an acyclic graph there is exactly one component per node without sons. */
  lemma AcyclicCount(g: Graph, cs: seq<seq<Node>>)
    requires Built(g, cs, g.sons.Keys) && Acyclic(g)
    ensures |cs| == |Leaves(g)|
  {
    hide Reach;
    forall i | 0 <= i < |cs| ensures cs[i] != [] { RootIsMember(g, cs, i); }
    RootsCount(g, cs);
    forall x ensures x in Elements(Roots(cs)) <==> x in Leaves(g) {
      if x in Leaves(g) {
        LeafIsRoot(g, cs, x);
        var i :| 0 <= i < |cs| && x == cs[i][0];
        assert Roots(cs)[i] == x;
      }
      if x in Elements(Roots(cs)) {
        var i :| 0 <= i < |cs| && x == Roots(cs)[i];
        RootIsLeaf(g, cs, i);
      }
    }
    assert Elements(Roots(cs)) == Leaves(g);
  }

  lemma FirstStep(g: Graph, p: seq<Node>, x: Node, y: Node)
    requires Connects(g, p, x, y) && |p| > 1
    ensures Edge(g, x, p[1]) && Reach(g, p[1], y)
  {
    assert Connects(g, p[1..], p[1], y);
  }

  lemma AcyclicScc(g: Graph, n: Node)
    requires Acyclic(g) && n in g.sons
    ensures Scc(g, n) == {n}
  {
    ReachSelf(g, n);
    forall m | m in Scc(g, n) ensures m == n {
      var p :| Connects(g, p, n, m);
      if |p| > 1 {
        FirstStep(g, p, n, m);
        ReachTrans(g, p[1], m, n);
      }
    }
  }

  ghost function Singletons(s: set<Node>): set<set<Node>> { set n | n in s :: {n} }

  lemma {:induction false} SingletonCount(s: set<Node>)
    ensures |Singletons(s)| == |s|
  {
    if s == {} {
      assert Singletons(s) == {};
    } else {
      var x :| x in s;
      var rest := s - {x};
      SingletonCount(rest);
      forall n | n in rest ensures {n} != {x} { assert n in {n}; }
      assert Singletons(s) == Singletons(rest) + {{x}};
    }
  }

  /** On an acyclic graph the components are as many as the strongly connected components,
      as the pass announces, only when there is no edge at all. */
  lemma AcyclicExactIffNoEdges(g: Graph, cs: seq<seq<Node>>)
    requires Built(g, cs, g.sons.Keys) && Acyclic(g)
    ensures |cs| == |Sccs(g)| <==> forall n :: n in g.sons ==> g.sons[n] == []
  {
    hide Reach, Scc;
    AcyclicCount(g, cs);
    forall n | n in g.sons ensures Scc(g, n) == {n} { AcyclicScc(g, n); }
    var singles := Singletons(g.sons.Keys);
    assert Sccs(g) == singles by {
      forall c ensures c in Sccs(g) <==> c in singles {
        if c in Sccs(g) { var n :| n in g.sons && c == Scc(g, n); assert c == {n}; }
        if c in singles { var n :| n in g.sons && c == {n}; assert c == Scc(g, n); }
      }
    }
    SingletonCount(g.sons.Keys);
    assert Leaves(g) <= g.sons.Keys;
    if |Leaves(g)| == |g.sons.Keys| {
      SameSize(Leaves(g), g.sons.Keys);
    } else {
      assert Leaves(g) != g.sons.Keys;
    }
  }

  lemma SameSize<T>(a: set<T>, b: set<T>)
    requires a <= b && |a| == |b|
    ensures a == b
  {
    assert b == a + (b - a);
  }
}
